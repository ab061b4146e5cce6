/** Port ranges and the lists of them that one pool4 address owns. */
module PortRanges {
  import opened Types

  /** A 16-bit port or ICMP identifier. */
  type Port = p: int | 0 <= p < 0x1_0000

  datatype Range = Range(min: Port, max: Port)

  /** Overlapping or adjacent. */
  predicate Touches(r1: Range, r2: Range) {
    r1.max >= r2.min - 1 && r1.min <= r2.max + 1
  }

  predicate Contains(r: Range, port: nat) {
    r.min <= port <= r.max
  }

  /** port_range_count computes in 32 bits, so an inverted range counts as a huge number. */
  function CountOf(r: Range): nat {
    if r.min <= r.max + 1 then r.max - r.min + 1 else 0x1_0000_0000 + r.max - r.min + 1
  }

  function Fuse(r1: Range, r2: Range): Range {
    Range(if r1.min < r2.min then r1.min else r2.min, if r1.max > r2.max then r1.max else r2.max)
  }

  ghost predicate HasPort(rs: seq<Range>, port: nat) {
    exists i :: 0 <= i < |rs| && Contains(rs[i], port)
  }

  /** Two lists none of whose ranges overlap or are adjacent. */
  ghost predicate Cross(a: seq<Range>, b: seq<Range>) {
    forall i, j :: 0 <= i < |a| && 0 <= j < |b| ==> !Touches(a[i], b[j])
  }

  ghost predicate NonEmpty(rs: seq<Range>) {
    forall i :: 0 <= i < |rs| ==> rs[i].min <= rs[i].max
  }

  /** The 32-bit count of every range is the number of its ports. */
  ghost predicate CountsRight(rs: seq<Range>) {
    forall i :: 0 <= i < |rs| ==> rs[i].min <= rs[i].max + 1
  }

  /** The canonical form: no empty range, no two ranges that could be one. */
  ghost predicate Canonical(rs: seq<Range>) {
    && NonEmpty(rs)
    && forall i, j :: 0 <= i < j < |rs| ==> !Touches(rs[i], rs[j])
  }

  lemma CanonicalAppend(a: seq<Range>, b: seq<Range>)
    ensures Canonical(a + b) <==> Canonical(a) && Canonical(b) && Cross(a, b)
  {
    var s := a + b;
    assert forall i :: 0 <= i < |a| ==> s[i] == a[i];
    if Canonical(s) {
      forall i | 0 <= i < |b| ensures b[i].min <= b[i].max {
        assert s[|a| + i] == b[i];
      }
      forall i, j | 0 <= i < j < |b| ensures !Touches(b[i], b[j]) {
        assert s[|a| + i] == b[i] && s[|a| + j] == b[j];
      }
      forall i, j | 0 <= i < |a| && 0 <= j < |b| ensures !Touches(a[i], b[j]) {
        assert s[|a| + j] == b[j];
      }
    }
  }

  lemma HasAppend(a: seq<Range>, b: seq<Range>, port: nat)
    ensures HasPort(a + b, port) <==> HasPort(a, port) || HasPort(b, port)
  {
    var s := a + b;
    if i :| 0 <= i < |a| && Contains(a[i], port) {
      assert s[i] == a[i];
    }
    if i :| 0 <= i < |b| && Contains(b[i], port) {
      assert s[|a| + i] == b[i];
    }
  }

  lemma HasSingle(r: Range, port: nat)
    ensures HasPort([r], port) <==> Contains(r, port)
  {
    assert [r][0] == r;
  }

  // ------------------------------------------------------------------- addition

  function Untouched(rs: seq<Range>, range: Range): seq<Range> {
    if rs == [] then []
    else
      var n := |rs| - 1;
      if Touches(rs[n], range) then Untouched(rs[..n], range) else Untouched(rs[..n], range) + [rs[n]]
  }

  /** The smallest range that covers `range` and everything in `rs` that touches it. */
  function Hull(rs: seq<Range>, range: Range): Range {
    if rs == [] then range
    else
      var n := |rs| - 1;
      if Touches(rs[n], range) then Fuse(rs[n], Hull(rs[..n], range)) else Hull(rs[..n], range)
  }

  /** What add_ports leaves: the untouched ranges in their order, then one fused range. */
  function AddPorts(rs: seq<Range>, range: Range): seq<Range> {
    Untouched(rs, range) + [Hull(rs, range)]
  }

  /**
   try_fusion followed by add_ports: the touching ranges are unlinked one by one
   and merged into the first of them, which goes to the tail.
   */
  method AddPortsLoop(ports: seq<Range>, range: Range) returns (result: seq<Range>)
    ensures result == AddPorts(ports, range)
  {
    var kept: seq<Range> := [];
    var fusion: Option<Range> := None;
    for i := 0 to |ports|
      invariant kept == Untouched(ports[..i], range)
      invariant (if fusion.None? then range else fusion.value) == Hull(ports[..i], range)
    {
      assert ports[..i + 1][..i] == ports[..i];
      if !Touches(ports[i], range) {
        kept := kept + [ports[i]];
      } else {
        fusion := Some(Fuse(ports[i], if fusion.Some? then fusion.value else range));
      }
    }
    assert ports[..|ports|] == ports;
    result := kept + [if fusion.Some? then fusion.value else range];
  }

  lemma {:induction false} UntouchedFacts(rs: seq<Range>, range: Range)
    ensures forall i :: 0 <= i < |Untouched(rs, range)| ==>
              Untouched(rs, range)[i] in rs && !Touches(Untouched(rs, range)[i], range)
  {
    if rs == [] {
    } else {
      UntouchedFacts(rs[..|rs| - 1], range);
    }
  }

  lemma {:induction false} UntouchedCanonical(rs: seq<Range>, range: Range)
    requires Canonical(rs)
    ensures Canonical(Untouched(rs, range))
  {
    if rs == [] {
    } else {
      var n := |rs| - 1;
      UntouchedCanonical(rs[..n], range);
      if !Touches(rs[n], range) {
        UntouchedFacts(rs[..n], range);
        var u := Untouched(rs[..n], range);
        forall i | 0 <= i < |u| ensures !Touches(u[i], rs[n]) {
          assert u[i] in rs[..n];
        }
        CanonicalAppend(u, [rs[n]]);
      }
    }
  }

  lemma {:induction false} HullContains(rs: seq<Range>, range: Range)
    ensures Hull(rs, range).min <= range.min && range.max <= Hull(rs, range).max
  {
    if rs == [] {
    } else {
      HullContains(rs[..|rs| - 1], range);
    }
  }

  /** A range that touches neither the new one nor any stored one does not touch the hull. */
  lemma {:induction false} HullApart(rs: seq<Range>, range: Range, other: Range)
    requires NonEmpty(rs) && range.min <= range.max && other.min <= other.max
    requires !Touches(other, range)
    requires forall i :: 0 <= i < |rs| && Touches(rs[i], range) ==> !Touches(other, rs[i])
    ensures !Touches(other, Hull(rs, range))
  {
    if rs == [] {
    } else {
      var n := |rs| - 1;
      HullApart(rs[..n], range, other);
      HullContains(rs[..n], range);
    }
  }

  lemma {:induction false} HullPorts(rs: seq<Range>, range: Range, port: nat)
    requires NonEmpty(rs) && range.min <= range.max
    ensures Contains(Hull(rs, range), port)
       <==> Contains(range, port) || exists i :: 0 <= i < |rs| && Touches(rs[i], range) && Contains(rs[i], port)
  {
    if rs == [] {
    } else {
      var n := |rs| - 1;
      var before := rs[..n];
      HullPorts(before, range, port);
      HullContains(before, range);
      if i :| 0 <= i < |before| && Touches(before[i], range) && Contains(before[i], port) {
        assert rs[i] == before[i];
      }
      if i :| 0 <= i < |rs| && Touches(rs[i], range) && Contains(rs[i], port) {
        assert i < n ==> before[i] == rs[i];
      }
    }
  }

  lemma {:induction false} UntouchedPorts(rs: seq<Range>, range: Range, port: nat)
    ensures HasPort(Untouched(rs, range), port)
       <==> exists i :: 0 <= i < |rs| && !Touches(rs[i], range) && Contains(rs[i], port)
  {
    if rs == [] {
    } else {
      var n := |rs| - 1;
      var before := rs[..n];
      UntouchedPorts(before, range, port);
      HasAppend(Untouched(before, range), [rs[n]], port);
      HasSingle(rs[n], port);
      if i :| 0 <= i < |before| && !Touches(before[i], range) && Contains(before[i], port) {
        assert rs[i] == before[i];
      }
      if i :| 0 <= i < |rs| && !Touches(rs[i], range) && Contains(rs[i], port) {
        assert i < n ==> before[i] == rs[i];
      }
    }
  }

  /** Adding is set union on ports, and keeps the canonical form. */
  lemma AddPortsIsUnion(rs: seq<Range>, range: Range, port: nat)
    requires NonEmpty(rs) && range.min <= range.max
    ensures HasPort(AddPorts(rs, range), port) <==> HasPort(rs, port) || Contains(range, port)
  {
    HasAppend(Untouched(rs, range), [Hull(rs, range)], port);
    HasSingle(Hull(rs, range), port);
    UntouchedPorts(rs, range, port);
    HullPorts(rs, range, port);
  }

  lemma AddPortsCanonical(rs: seq<Range>, range: Range)
    requires Canonical(rs) && range.min <= range.max
    ensures Canonical(AddPorts(rs, range))
  {
    var u, h := Untouched(rs, range), Hull(rs, range);
    UntouchedCanonical(rs, range);
    UntouchedFacts(rs, range);
    HullContains(rs, range);
    forall i | 0 <= i < |u| ensures !Touches(u[i], h) {
      var k :| 0 <= k < |rs| && rs[k] == u[i];
      HullApart(rs, range, u[i]);
    }
    CanonicalAppend(u, [h]);
  }

  /** What a request for port 0 of TCP or UDP is normalised to. */
  const NO_PORTS := Range(1, 0)

  /** A stored range that reaches down to port 1 or 0 absorbs an addition of no ports. */
  lemma {:induction false} LowRangeAbsorbs(rs: seq<Range>, j: nat)
    requires Canonical(rs) && j < |rs| && rs[j].min <= 1
    ensures Hull(rs, NO_PORTS) == rs[j]
    decreases |rs|
  {
    var n := |rs| - 1;
    if j < n {
      assert !Touches(rs[j], rs[n]);
      LowRangeAbsorbs(rs[..n], j);
    } else {
      forall i | 0 <= i < n ensures rs[..n][i].min > 1 {
        assert !Touches(rs[i], rs[n]);
      }
      NoneTouched(rs[..n]);
    }
  }

  lemma {:induction false} NoPortsHull(rs: seq<Range>, port: nat)
    requires CountsRight(rs)
    ensures var h := Hull(rs, NO_PORTS);
            && h.min <= 1 && h.min <= h.max + 1
            && (Contains(h, port) <==> exists i :: 0 <= i < |rs| && Touches(rs[i], NO_PORTS) && Contains(rs[i], port))
  {
    if rs == [] {
    } else {
      var n := |rs| - 1;
      var before := rs[..n];
      NoPortsHull(before, port);
      if i :| 0 <= i < |before| && Touches(before[i], NO_PORTS) && Contains(before[i], port) {
        assert rs[i] == before[i];
      }
      if i :| 0 <= i < |rs| && Touches(rs[i], NO_PORTS) && Contains(rs[i], port) {
        assert i < n ==> before[i] == rs[i];
      }
    }
  }

  /** Adding no ports adds no ports. */
  lemma AddNoPorts(rs: seq<Range>, port: nat)
    requires CountsRight(rs)
    ensures HasPort(AddPorts(rs, NO_PORTS), port) <==> HasPort(rs, port)
  {
    HasAppend(Untouched(rs, NO_PORTS), [Hull(rs, NO_PORTS)], port);
    HasSingle(Hull(rs, NO_PORTS), port);
    UntouchedPorts(rs, NO_PORTS, port);
    NoPortsHull(rs, port);
  }

  /** Additions leave no range that counts wrong. */
  lemma AddPortsCountsRight(rs: seq<Range>, range: Range)
    requires CountsRight(rs) && range.min <= range.max + 1
    ensures CountsRight(AddPorts(rs, range))
  {
    UntouchedFacts(rs, range);
    HullCountsRight(rs, range);
    var u := Untouched(rs, range);
    forall i | 0 <= i < |u| ensures u[i].min <= u[i].max + 1 {
      var k :| 0 <= k < |rs| && rs[k] == u[i];
    }
  }

  lemma {:induction false} HullCountsRight(rs: seq<Range>, range: Range)
    requires CountsRight(rs) && range.min <= range.max + 1
    ensures Hull(rs, range).min <= Hull(rs, range).max + 1
  {
    if rs == [] {
    } else {
      HullCountsRight(rs[..|rs| - 1], range);
    }
  }

  lemma AddNoPortsCanonical(rs: seq<Range>)
    requires Canonical(rs) && exists i :: 0 <= i < |rs| && rs[i].min <= 1
    ensures Canonical(AddPorts(rs, NO_PORTS)) && Hull(rs, NO_PORTS).min <= 1
  {
    var u, h := Untouched(rs, NO_PORTS), Hull(rs, NO_PORTS);
    var j :| 0 <= j < |rs| && rs[j].min <= 1;
    LowRangeAbsorbs(rs, j);
    UntouchedFacts(rs, NO_PORTS);
    UntouchedCanonical(rs, NO_PORTS);
    forall i | 0 <= i < |u| ensures !Touches(u[i], h) {
      var k :| 0 <= k < |rs| && rs[k] == u[i];
      assert k != j;
    }
    CanonicalAppend(u, [h]);
  }

  /** Ranges that could absorb nothing, an empty one among them: adding no ports again changes nothing about that. */
  ghost predicate EmptyAmong(rs: seq<Range>) {
    && NO_PORTS in rs
    && forall k :: 0 <= k < |rs| ==> rs[k].min > 1 || rs[k] == NO_PORTS
  }

  lemma EmptyStays(rs: seq<Range>)
    requires EmptyAmong(rs) || (forall k :: 0 <= k < |rs| ==> rs[k].min > 1)
    ensures EmptyAmong(AddPorts(rs, NO_PORTS))
  {
    NoneTouched(rs);
    UntouchedFacts(rs, NO_PORTS);
    var u := Untouched(rs, NO_PORTS);
    assert (u + [NO_PORTS])[|u|] == NO_PORTS;
    forall k | 0 <= k < |u| ensures u[k].min > 1 || u[k] == NO_PORTS {
      var i :| 0 <= i < |rs| && rs[i] == u[k];
    }
  }

  lemma {:induction false} NoneTouched(rs: seq<Range>)
    requires forall i :: 0 <= i < |rs| ==> rs[i].min > 1 || rs[i] == NO_PORTS
    ensures Hull(rs, NO_PORTS) == NO_PORTS
  {
    if rs == [] {
    } else {
      NoneTouched(rs[..|rs| - 1]);
    }
  }

  // -------------------------------------------------------------------- removal

  ghost predicate Apart(r1: Range, r2: Range) {
    r1.max < r2.min || r2.max < r1.min
  }

  ghost predicate Covered(cur: Range, rm: Range) {
    rm.min <= cur.min && cur.max <= rm.max
  }

  /** The test for a hole strictly inside; with inverted bounds a range can pass it without meeting `rm` at all. */
  predicate Struck(cur: Range, rm: Range) {
    cur.min < rm.min && rm.max < cur.max
  }

  /**
   The walk of rm_range over the list `kept + rest`. What is left of a trimmed or split range is appended to the very
   list being walked, and list_for_each_entry_safe looks up the next element before the body runs: `more` is false
   once the walk was at the tail. So pieces made at the tail are never visited, and earlier ones are.
   */
  datatype Walk = Walk(kept: seq<Range>, rest: seq<Range>, more: bool)

  function Start(ports: seq<Range>): Walk {
    Walk([], ports, ports != [])
  }

  ghost function Step(w: Walk, rm: Range): Walk
    requires w.rest != []
  {
    var cur, rest, more := w.rest[0], w.rest[1..], |w.rest| > 1;
    if Covered(cur, rm) then Walk(w.kept, rest, more)
    else if Struck(cur, rm) then
      Walk(w.kept, rest + [Range(cur.min, rm.min - 1), Range(rm.max + 1, cur.max)], more)
    else if Apart(cur, rm) then Walk(w.kept + [cur], rest, more)
    else if cur.min < rm.min then Walk(w.kept, rest + [Range(cur.min, rm.min - 1)], more)
    else if rm.max < cur.max then Walk(w.kept, rest + [Range(rm.max + 1, cur.max)], more)
    else Walk(w.kept + [cur], rest, more)
  }

  /** Where the walk is after `n` turns, unless it ended before. */
  ghost function After(w: Walk, rm: Range, n: nat): Walk
    requires w.more ==> w.rest != []
    ensures After(w, rm, n).more ==> After(w, rm, n).rest != []
    decreases n
  {
    if n == 0 || !w.more then w else After(Step(w, rm), rm, n - 1)
  }

  ghost predicate EndsBy(ports: seq<Range>, rm: Range, n: nat) {
    !After(Start(ports), rm, n).more
  }

  ghost function ListAfter(ports: seq<Range>, rm: Range, n: nat): seq<Range> {
    After(Start(ports), rm, n).kept + After(Start(ports), rm, n).rest
  }

  /** Set difference on ports. */
  ghost predicate Difference(ports: seq<Range>, rm: Range, result: seq<Range>) {
    forall p: nat :: HasPort(result, p) <==> HasPort(ports, p) && !Contains(rm, p)
  }

  /** The canonical form of what remains once the ports of `rm` are gone. */
  ghost predicate Punched(ports: seq<Range>, rm: Range, result: seq<Range>) {
    Canonical(result) && Difference(ports, rm, result)
  }

  ghost predicate AnyStruck(rs: seq<Range>, rm: Range) {
    exists i :: 0 <= i < |rs| && Struck(rs[i], rm)
  }

  /** The bounds are inverted by at least two, and a range other than the last is struck. */
  predicate Spins(ports: seq<Range>, rm: Range) {
    rm.max + 2 <= rm.min && exists i :: 0 <= i < |ports| - 1 && Struck(ports[i], rm)
  }

  // ------------------------------------------------------------------ ordered bounds

  lemma StepOrdered(ports: seq<Range>, rm: Range, w: Walk, original: nat)
    requires rm.min <= rm.max && w.rest != [] && Walking(ports, rm, w.kept, w.rest, original)
    ensures var w' := Step(w, rm);
            && Walking(ports, rm, w'.kept, w'.rest, Pred(original))
            && (w'.rest == w.rest[1..] || original > 0)
  {
    var cur, rest := w.rest[0], w.rest[1..];
    assert w.rest == [cur] + rest;
    WalkHead(ports, rm, w.kept, cur, rest, original);
    if cur.min > cur.max && Covered(cur, rm) {
      WalkDrop(ports, rm, w.kept, cur, rest, original);
    } else if Apart(cur, rm) {
      WalkKeep(ports, rm, w.kept, cur, rest, original);
    } else {
      WalkReplace(ports, rm, w.kept, cur, rest, original);
      assert Step(w, rm).rest == rest + Pieces(cur, rm);
    }
  }

  /** With ordered bounds the walk ends, whatever the list, and what it leaves is the set difference. */
  lemma {:induction false} OrderedWalk(ports: seq<Range>, rm: Range, w: Walk, original: nat) returns (n: nat)
    requires rm.min <= rm.max && Walking(ports, rm, w.kept, w.rest, original)
    requires (w.more ==> w.rest != []) && (!w.more ==> original == 0)
    ensures var end := After(w, rm, n);
            && !end.more && Difference(ports, rm, end.kept + end.rest)
            && (Canonical(ports) ==> Punched(ports, rm, end.kept + end.rest))
    decreases original, |w.rest|
  {
    hide Walking, Step;
    if w.more {
      StepOrdered(ports, rm, w, original);
      StepMore(ports, rm, w, original);
      n := OrderedWalk(ports, rm, Step(w, rm), Pred(original));
      n := n + 1;
    } else {
      n := 0;
      WalkingDone(ports, rm, w.kept, w.rest);
    }
  }

  lemma StepMore(ports: seq<Range>, rm: Range, w: Walk, original: nat)
    requires w.rest != [] && Walking(ports, rm, w.kept, w.rest, original)
    ensures Step(w, rm).more ==> Step(w, rm).rest != []
    ensures !Step(w, rm).more ==> original <= 1
  {
  }

  lemma WalkingDone(ports: seq<Range>, rm: Range, kept: seq<Range>, rest: seq<Range>)
    requires Walking(ports, rm, kept, rest, 0)
    ensures Difference(ports, rm, kept + rest) && (Canonical(ports) ==> Punched(ports, rm, kept + rest))
  {
    NothingLeft(kept + rest, rm);
  }

  function Pred(n: nat): nat {
    if n > 0 then n - 1 else 0
  }

  /** The walk's invariant: outside `rm` nothing is lost or gained, and whatever was kept or made avoids `rm`. */
  ghost predicate Walking(ports: seq<Range>, rm: Range, kept: seq<Range>, rest: seq<Range>, original: nat) {
    && CountsRight(kept + rest) && (Canonical(ports) ==> Canonical(kept + rest))
    && original <= |rest|
    && (forall i :: 0 <= i < |kept| ==> Apart(kept[i], rm))
    && (forall i :: original <= i < |rest| ==> Apart(rest[i], rm))
    && (forall p: nat :: !Contains(rm, p) ==> (HasPort(kept + rest, p) <==> HasPort(ports, p)))
  }

  lemma WalkHead(ports: seq<Range>, rm: Range, kept: seq<Range>, cur: Range, rest: seq<Range>, original: nat)
    requires Walking(ports, rm, kept, [cur] + rest, original)
    ensures cur.min <= cur.max + 1
  {
    assert (kept + ([cur] + rest))[|kept|] == cur;
  }

  /** A range without ports goes when it lies between the bounds. */
  lemma WalkDrop(ports: seq<Range>, rm: Range, kept: seq<Range>, cur: Range, rest: seq<Range>, original: nat)
    requires Walking(ports, rm, kept, [cur] + rest, original) && cur.min > cur.max
    ensures Walking(ports, rm, kept, rest, Pred(original))
  {
    var all := kept + ([cur] + rest);
    assert all[|kept|] == cur && !Canonical(all);
    assert forall i :: 0 <= i < |rest| ==> rest[i] == ([cur] + rest)[i + 1];
    Reordered(kept, cur, rest, []);
    forall p: nat ensures HasPort(kept + rest, p) <==> HasPort(all, p) {
      HasAppend(kept, rest, p);
      HasAppend(kept, [cur] + rest, p);
      HasAppend([cur], rest, p);
      HasSingle(cur, p);
    }
  }

  lemma Reordered(kept: seq<Range>, cur: Range, rest: seq<Range>, pieces: seq<Range>)
    requires CountsRight(kept + ([cur] + rest)) && CountsRight(pieces)
    ensures CountsRight(kept + (rest + pieces)) && CountsRight(kept + rest)
  {
    var all := kept + ([cur] + rest);
    assert forall i :: 0 <= i < |kept| ==> kept[i] == all[i];
    assert forall i :: 0 <= i < |rest| ==> rest[i] == all[|kept| + 1 + i];
  }

  lemma WalkKeep(ports: seq<Range>, rm: Range, kept: seq<Range>, cur: Range, rest: seq<Range>, original: nat)
    requires Walking(ports, rm, kept, [cur] + rest, original)
    requires Apart(cur, rm)
    ensures Walking(ports, rm, kept + [cur], rest, Pred(original))
  {
    assert kept + [cur] + rest == kept + ([cur] + rest);
    assert forall i :: 0 <= i < |rest| ==> rest[i] == ([cur] + rest)[i + 1];
  }

  lemma WalkReplace(ports: seq<Range>, rm: Range, kept: seq<Range>, cur: Range, rest: seq<Range>, original: nat)
    requires Walking(ports, rm, kept, [cur] + rest, original)
    requires rm.min <= rm.max && cur.min <= cur.max && !Apart(cur, rm)
    ensures original > 0
    ensures Walking(ports, rm, kept, rest + Pieces(cur, rm), original - 1)
  {
    var all := [cur] + rest;
    assert all[0] == cur;
    PiecesRemain(cur, rm);
    Reordered(kept, cur, rest, Pieces(cur, rm));
    if Canonical(ports) {
      ReplaceCanonical(kept, cur, rest, Pieces(cur, rm), rm);
    }
    Replace(kept, cur, rest, Pieces(cur, rm), rm);
    assert forall i :: 0 <= i < |rest| ==> rest[i] == all[i + 1];
  }

  /** What is left of `cur` once the ports of `rm` are gone. */
  function Pieces(cur: Range, rm: Range): seq<Range> {
    (if cur.min < rm.min then [Range(cur.min, rm.min - 1)] else [])
    + (if rm.max < cur.max then [Range(rm.max + 1, cur.max)] else [])
  }

  ghost predicate Remainder(cur: Range, rm: Range, pieces: seq<Range>) {
    && Canonical(pieces)
    && (forall i :: 0 <= i < |pieces| ==>
          cur.min <= pieces[i].min && pieces[i].max <= cur.max && Apart(pieces[i], rm))
    && (forall p: nat :: HasPort(pieces, p) <==> Contains(cur, p) && !Contains(rm, p))
  }

  lemma PiecesRemain(cur: Range, rm: Range)
    requires cur.min <= cur.max && rm.min <= rm.max && !Apart(cur, rm)
    ensures Remainder(cur, rm, Pieces(cur, rm))
  {
    forall p: nat ensures HasPort(Pieces(cur, rm), p) <==> Contains(cur, p) && !Contains(rm, p) {
      PiecesPorts(cur, rm, p);
    }
  }

  lemma PiecesPorts(cur: Range, rm: Range, p: nat)
    requires cur.min <= cur.max && rm.min <= rm.max && !Apart(cur, rm)
    ensures HasPort(Pieces(cur, rm), p) <==> Contains(cur, p) && !Contains(rm, p)
  {
    var below: seq<Range> := if cur.min < rm.min then [Range(cur.min, rm.min - 1)] else [];
    var above: seq<Range> := if rm.max < cur.max then [Range(rm.max + 1, cur.max)] else [];
    HasAppend(below, above, p);
    if cur.min < rm.min {
      HasSingle(Range(cur.min, rm.min - 1), p);
    }
    if rm.max < cur.max {
      HasSingle(Range(rm.max + 1, cur.max), p);
    }
  }

  lemma ReplaceCanonical(kept: seq<Range>, cur: Range, rest: seq<Range>, pieces: seq<Range>, rm: Range)
    requires Canonical(kept + ([cur] + rest))
    requires Remainder(cur, rm, pieces)
    ensures Canonical(kept + (rest + pieces))
  {
    CanonicalAppend(kept, [cur] + rest);
    CanonicalAppend([cur], rest);
    CrossParts(kept, [cur], rest);
    SubrangesApart(kept, cur, rest, pieces);
    CanonicalAppend(rest, pieces);
    CanonicalAppend(kept, rest + pieces);
  }

  lemma Replace(kept: seq<Range>, cur: Range, rest: seq<Range>, pieces: seq<Range>, rm: Range)
    requires Remainder(cur, rm, pieces)
    ensures forall p: nat :: !Contains(rm, p) ==>
              (HasPort(kept + (rest + pieces), p) <==> HasPort(kept + ([cur] + rest), p))
  {
    forall p: nat | !Contains(rm, p)
      ensures HasPort(kept + (rest + pieces), p) <==> HasPort(kept + ([cur] + rest), p)
    {
      HasAppend(kept, rest + pieces, p);
      HasAppend(rest, pieces, p);
      HasAppend(kept, [cur] + rest, p);
      HasAppend([cur], rest, p);
      HasSingle(cur, p);
    }
  }

  lemma CrossParts(a: seq<Range>, b: seq<Range>, c: seq<Range>)
    ensures Cross(a, b + c) <==> Cross(a, b) && Cross(a, c)
  {
    assert forall j :: 0 <= j < |b| ==> (b + c)[j] == b[j];
    assert forall j :: |b| <= j < |b + c| ==> (b + c)[j] == c[j - |b|];
    forall i, j | Cross(a, b + c) && 0 <= i < |a| && 0 <= j < |c|
      ensures !Touches(a[i], c[j])
    {
      assert (b + c)[|b| + j] == c[j];
    }
  }

  lemma SubrangesApart(kept: seq<Range>, cur: Range, rest: seq<Range>, pieces: seq<Range>)
    requires Cross(kept, [cur]) && Cross(kept, rest) && Cross([cur], rest)
    requires forall i :: 0 <= i < |pieces| ==> cur.min <= pieces[i].min && pieces[i].max <= cur.max
    ensures Cross(rest, pieces) && Cross(kept, rest + pieces)
  {
    assert [cur][0] == cur;
    forall i, j | 0 <= i < |rest| && 0 <= j < |pieces| ensures !Touches(rest[i], pieces[j]) {
      assert !Touches([cur][0], rest[i]);
    }
    forall i, j | 0 <= i < |kept| && 0 <= j < |pieces| ensures !Touches(kept[i], pieces[j]) {
      assert !Touches(kept[i], [cur][0]);
    }
    CrossParts(kept, rest, pieces);
  }

  lemma NothingLeft(rs: seq<Range>, rm: Range)
    requires forall i :: 0 <= i < |rs| ==> Apart(rs[i], rm)
    ensures forall p: nat :: Contains(rm, p) ==> !HasPort(rs, p)
  {
  }

  // ------------------------------------------------------------------ inverted bounds

  /** The last two ranges touch, so the list is not canonical. */
  ghost predicate Botched(all: seq<Range>) {
    |all| >= 2 && Touches(all[|all| - 2], all[|all| - 1])
  }

  /** Nothing struck yet and nothing changed, or the list is spoilt for good. */
  ghost predicate Inverted(ports: seq<Range>, rm: Range, w: Walk) {
    && (w.more ==> w.rest != [])
    && (|| (w.kept + w.rest == ports && !AnyStruck(w.kept, rm) && (!w.more ==> w.rest == []))
        || (Botched(w.kept + w.rest) && AnyStruck(ports, rm)))
    && NonEmpty(w.kept + w.rest)
  }

  lemma StepInverted(ports: seq<Range>, rm: Range, w: Walk)
    requires rm.max < rm.min && w.rest != [] && Inverted(ports, rm, w)
    ensures Inverted(ports, rm, Step(w, rm))
  {
    var cur, rest, w' := w.rest[0], w.rest[1..], Step(w, rm);
    var all := w.kept + w.rest;
    assert all[|w.kept|] == cur;
    if Struck(cur, rm) {
      var pieces := [Range(cur.min, rm.min - 1), Range(rm.max + 1, cur.max)];
      var all' := w.kept + (rest + pieces);
      assert forall i :: 0 <= i < |rest| ==> rest[i] == all[|w.kept| + 1 + i];
      assert forall i :: 0 <= i < |w.kept| ==> w.kept[i] == all[i];
      assert all'[|all'| - 2] == pieces[0] && all'[|all'| - 1] == pieces[1];
      assert Botched(all');
      if all == ports {
        assert Struck(ports[|w.kept|], rm);
      }
    } else {
      assert w'.kept + w'.rest == all;
    }
  }

  lemma {:induction false} InvertedWalk(ports: seq<Range>, rm: Range, w: Walk, n: nat)
    requires rm.max < rm.min && Inverted(ports, rm, w)
    ensures Inverted(ports, rm, After(w, rm, n))
    decreases n
  {
    hide Step, Botched, AnyStruck, NonEmpty;
    if n > 0 && w.more {
      StepInverted(ports, rm, w);
      InvertedWalk(ports, rm, Step(w, rm), n - 1);
    }
  }

  lemma BotchedNotCanonical(all: seq<Range>)
    requires Botched(all)
    ensures !Canonical(all)
  {
    assert Touches(all[|all| - 2], all[|all| - 1]);
  }

  /** With inverted bounds a walk that ends leaves the list as it was if no range is struck, and else spoils it. */
  lemma InvertedEnd(ports: seq<Range>, rm: Range, n: nat)
    requires Canonical(ports) && rm.max < rm.min && EndsBy(ports, rm, n)
    ensures if AnyStruck(ports, rm) then !Canonical(ListAfter(ports, rm, n)) && |ListAfter(ports, rm, n)| >= 2
            else ListAfter(ports, rm, n) == ports
  {
    assert [] + ports == ports;
    InvertedWalk(ports, rm, Start(ports), n);
    var w := After(Start(ports), rm, n);
    if Botched(w.kept + w.rest) {
      BotchedNotCanonical(w.kept + w.rest);
    } else {
      assert w.kept == ports;
    }
  }

  /** A struck range that is not at the tail. */
  ghost predicate Spinning(w: Walk, rm: Range) {
    w.more && exists i :: 0 <= i < |w.rest| - 1 && Struck(w.rest[i], rm)
  }

  lemma StepSpins(w: Walk, rm: Range)
    requires rm.max + 2 <= rm.min && Spinning(w, rm)
    ensures Spinning(Step(w, rm), rm)
  {
    var cur, rest, w' := w.rest[0], w.rest[1..], Step(w, rm);
    var i :| 0 <= i < |w.rest| - 1 && Struck(w.rest[i], rm);
    if Struck(cur, rm) {
      assert w'.rest[|w'.rest| - 2] == Range(cur.min, rm.min - 1);
    } else {
      assert w'.rest[i - 1] == w.rest[i];
    }
  }

  lemma {:induction false} SpinsOn(w: Walk, rm: Range, n: nat)
    requires rm.max + 2 <= rm.min && Spinning(w, rm)
    ensures After(w, rm, n).more
    decreases n
  {
    if n == 0 {
    } else {
      StepSpins(w, rm);
      SpinsOn(Step(w, rm), rm, n - 1);
    }
  }

  /** Only the tail may be struck: the walk gets there and ends. */
  lemma {:induction false} TailEnds(w: Walk, rm: Range)
    requires rm.max < rm.min && (w.more ==> w.rest != [])
    requires forall i :: 0 <= i < |w.rest| - 1 ==> !Struck(w.rest[i], rm)
    ensures !After(w, rm, |w.rest|).more
    decreases |w.rest|
  {
    if w.more && |w.rest| > 1 {
      var w' := Step(w, rm);
      assert w'.rest == w.rest[1..];
      TailEnds(w', rm);
    } else if w.more {
      assert !Step(w, rm).more;
      assert After(w, rm, 1) == After(Step(w, rm), rm, 0);
    }
  }

  /** Inverted by one: the pieces are not struck again, so only the `original` first are. */
  lemma {:induction false} AdjacentEnds(w: Walk, rm: Range, original: nat) returns (n: nat)
    requires rm.max + 1 == rm.min && (w.more ==> w.rest != []) && original <= |w.rest|
    requires forall i :: original <= i < |w.rest| ==> !Struck(w.rest[i], rm)
    ensures !After(w, rm, n).more
    decreases original, |w.rest|
  {
    if w.more {
      var w', cur := Step(w, rm), w.rest[0];
      if Struck(cur, rm) {
        assert w'.rest == w.rest[1..] + [Range(cur.min, rm.min - 1), Range(rm.max + 1, cur.max)];
      } else {
        assert w'.rest == w.rest[1..];
      }
      n := AdjacentEnds(w', rm, Pred(original));
      n := n + 1;
    } else {
      n := 0;
    }
  }

  /** How long a walk takes that ends. */
  lemma WalkEnds(ports: seq<Range>, rm: Range) returns (n: nat)
    requires CountsRight(ports) && !Spins(ports, rm)
    ensures EndsBy(ports, rm, n)
  {
    if rm.min <= rm.max {
      assert [] + ports == ports;
      n := OrderedWalk(ports, rm, Start(ports), |ports|);
    } else if rm.min == rm.max + 1 {
      n := AdjacentEnds(Start(ports), rm, |ports|);
    } else {
      n := |ports|;
      TailEnds(Start(ports), rm);
    }
  }

  /** The walk ends exactly if it does not spin. */
  lemma EndsIff(ports: seq<Range>, rm: Range)
    requires CountsRight(ports)
    ensures (exists n :: EndsBy(ports, rm, n)) <==> !Spins(ports, rm)
  {
    if Spins(ports, rm) {
      forall n ensures !EndsBy(ports, rm, n) {
        SpinsOn(Start(ports), rm, n);
      }
    } else {
      var n := WalkEnds(ports, rm);
    }
  }

  lemma {:induction false} AfterEnd(w: Walk, rm: Range, m: nat, n: nat)
    requires (w.more ==> w.rest != []) && !After(w, rm, m).more && m <= n
    ensures After(w, rm, n) == After(w, rm, m)
    decreases m
  {
    if w.more {
      AfterEnd(Step(w, rm), rm, m - 1, n - 1);
    }
  }

  /** Two walks that have ended are at the same end. */
  lemma SameEnd(ports: seq<Range>, rm: Range, m: nat, n: nat)
    requires EndsBy(ports, rm, m) && EndsBy(ports, rm, n)
    ensures ListAfter(ports, rm, m) == ListAfter(ports, rm, n)
  {
    if m <= n {
      AfterEnd(Start(ports), rm, m, n);
    } else {
      AfterEnd(Start(ports), rm, n, m);
    }
  }

  /** A walk that has ended has punched its hole exactly if the bounds are ordered or no range is struck. */
  lemma EndIsDifferenceIff(ports: seq<Range>, rm: Range, n: nat)
    requires Canonical(ports) && EndsBy(ports, rm, n)
    ensures Punched(ports, rm, ListAfter(ports, rm, n)) <==> rm.min <= rm.max || !AnyStruck(ports, rm)
  {
    if rm.min <= rm.max {
      assert [] + ports == ports;
      var m := OrderedWalk(ports, rm, Start(ports), |ports|);
      SameEnd(ports, rm, m, n);
    } else {
      InvertedEnd(ports, rm, n);
    }
  }

  /** The walk ends in the canonical set difference exactly if the bounds are ordered or no range is struck. */
  lemma HoleIff(ports: seq<Range>, rm: Range)
    requires Canonical(ports)
    ensures (exists n :: EndsBy(ports, rm, n) && Punched(ports, rm, ListAfter(ports, rm, n))) <==>
            rm.min <= rm.max || !AnyStruck(ports, rm)
  {
    hide Punched;
    forall n | EndsBy(ports, rm, n)
      ensures Punched(ports, rm, ListAfter(ports, rm, n)) <==> rm.min <= rm.max || !AnyStruck(ports, rm)
    {
      EndIsDifferenceIff(ports, rm, n);
    }
    if rm.min <= rm.max || !AnyStruck(ports, rm) {
      var n := WalkEnds(ports, rm);
    }
  }

  /** With ordered bounds a walk that has ended has taken out exactly the ports of `rm`, whatever the list. */
  lemma OrderedIsDifference(ports: seq<Range>, rm: Range, n: nat)
    requires CountsRight(ports) && rm.min <= rm.max && EndsBy(ports, rm, n)
    ensures Difference(ports, rm, ListAfter(ports, rm, n))
  {
    assert [] + ports == ports;
    var m := OrderedWalk(ports, rm, Start(ports), |ports|);
    SameEnd(ports, rm, m, n);
  }

  lemma StepCounted(w: Walk, rm: Range)
    requires w.rest != [] && CountsRight(w.kept + w.rest)
    ensures CountsRight(Step(w, rm).kept + Step(w, rm).rest)
  {
    var cur, rest, w' := w.rest[0], w.rest[1..], Step(w, rm);
    assert w.rest == [cur] + rest;
    if w'.kept == w.kept + [cur] {
      assert w'.kept + w'.rest == w.kept + w.rest;
    } else {
      var pieces := StepPieces(cur, rm);
      assert w'.rest == rest + pieces;
      Reordered(w.kept, cur, rest, pieces);
    }
  }

  /** What one turn appends. */
  ghost function StepPieces(cur: Range, rm: Range): (pieces: seq<Range>)
    ensures CountsRight(pieces)
  {
    if Covered(cur, rm) then []
    else if Struck(cur, rm) then [Range(cur.min, rm.min - 1), Range(rm.max + 1, cur.max)]
    else if Apart(cur, rm) then []
    else if cur.min < rm.min then [Range(cur.min, rm.min - 1)]
    else if rm.max < cur.max then [Range(rm.max + 1, cur.max)]
    else []
  }

  lemma {:induction false} StaysCounted(w: Walk, rm: Range, n: nat)
    requires CountsRight(w.kept + w.rest) && (w.more ==> w.rest != [])
    ensures var end := After(w, rm, n); CountsRight(end.kept + end.rest)
    decreases n
  {
    hide CountsRight;
    if n == 0 || !w.more {
    } else {
      StepCounted(w, rm);
      StaysCounted(Step(w, rm), rm, n - 1);
    }
  }

  /**
   rm_range: one turn of the loop after the other, while there is an element to go on to. With ordered bounds it is set
   difference on every list; on canonical ones the exact condition for that, and for the form, is known.
   */
  method RmRange(ports: seq<Range>, rm: Range) returns (result: seq<Range>)
    requires CountsRight(ports)
    requires !Spins(ports, rm)
    ensures CountsRight(result)
    ensures rm.min <= rm.max ==> Difference(ports, rm, result)
    ensures Canonical(ports) ==> (Punched(ports, rm, result) <==> rm.min <= rm.max || !AnyStruck(ports, rm))
    ensures Canonical(ports) && rm.max < rm.min ==>
              if AnyStruck(ports, rm) then !Canonical(result) && |result| >= 2 else result == ports
  {
    ghost var n := WalkEnds(ports, rm);
    ghost var left := n;
    var kept: seq<Range>, rest, more := [], ports, ports != [];
    while more
      invariant more ==> rest != []
      invariant After(Walk(kept, rest, more), rm, left) == After(Start(ports), rm, n)
      invariant more ==> left > 0
      decreases left
    {
      ghost var w := Walk(kept, rest, more);
      var cur := rest[0];
      more := |rest| > 1;
      rest := rest[1..];
      if rm.min <= cur.min && cur.max <= rm.max {
        // Fully covered: it goes.
      } else if cur.min < rm.min && rm.max < cur.max {
        rest := rest + [Range(cur.min, rm.min - 1), Range(rm.max + 1, cur.max)];
      } else if rm.max < cur.min || rm.min > cur.max {
        kept := kept + [cur];
      } else if cur.min < rm.min {
        rest := rest + [Range(cur.min, rm.min - 1)];
      } else if rm.max < cur.max {
        rest := rest + [Range(rm.max + 1, cur.max)];
      } else {
        kept := kept + [cur];
      }
      assert Walk(kept, rest, more) == Step(w, rm);
      left := left - 1;
    }
    result := kept + rest;
    assert result == ListAfter(ports, rm, n);
    assert [] + ports == ports;
    StaysCounted(Start(ports), rm, n);
    if rm.min <= rm.max {
      OrderedIsDifference(ports, rm, n);
    }
    if Canonical(ports) {
      EndIsDifferenceIff(ports, rm, n);
      if rm.max < rm.min {
        InvertedEnd(ports, rm, n);
      }
    }
  }

  /** The hole 8-2 punched out of 1-3: ports 4 to 7, which were not there, are added. */
  lemma InvertedHoleAdds()
    ensures var ports, rm := [Range(1, 3)], Range(8, 2);
            && EndsBy(ports, rm, 1) && ListAfter(ports, rm, 1) == [Range(1, 7), Range(3, 3)]
            && HasPort(ListAfter(ports, rm, 1), 5) && !HasPort(ports, 5)
  {
    var ports, rm := [Range(1, 3)], Range(8, 2);
    var end := Walk([], [Range(1, 7), Range(3, 3)], false);
    assert Step(Start(ports), rm) == end;
    assert After(Start(ports), rm, 1) == After(end, rm, 0);
    assert Contains(end.rest[0], 5);
  }

  /** The hole 8-5 punched out of 1-7 and 100-200: 1-7 is made again and again. */
  lemma InvertedHoleSpins(n: nat)
    ensures !EndsBy([Range(1, 7), Range(100, 200)], Range(8, 5), n)
  {
    var ports := [Range(1, 7), Range(100, 200)];
    assert Struck(ports[0], Range(8, 5));
    SpinsOn(Start(ports), Range(8, 5), n);
  }
}
