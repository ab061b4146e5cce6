/** Explicit address mappings (section 3 of RFC 7757): two tries that hold the same entries. Addresses are bit strings. */
module Eam {

  import opened Types
  import opened Trie

  type Bits = seq<bool>

  datatype Prefix = Prefix(address: Bits, len: nat)
  datatype Entry = Entry(prefix6: Prefix, prefix4: Prefix)

  datatype Table = Table(trie6: Node<Entry>, trie4: Node<Entry>, count: int)
  datatype Code = Ok | Einval | Eexist | Esrch

  const EMPTY := Table(Nil, Nil, 0)

  function KeyOf(p: Prefix): Key {
    if p.len <= |p.address| then p.address[..p.len] else p.address
  }

  /** prefix6_validate and prefix4_validate: nothing after the prefix. */
  predicate ValidPrefix(p: Prefix, width: nat) {
    |p.address| == width && p.len <= width && forall i :: p.len <= i < width ==> !p.address[i]
  }

  /** validate_prefixes */
  predicate ValidEntry(e: Entry) {
    ValidPrefix(e.prefix6, 128) && ValidPrefix(e.prefix4, 32) && 32 - e.prefix4.len <= 128 - e.prefix6.len
  }

  /** validate_overlapping looks the base addresses up, in full length. */
  predicate BaseIsFree(t: Table, e: Entry) {
    Get(t.trie6, e.prefix6.address).None? && Get(t.trie4, e.prefix4.address).None?
  }

  /** eamt_add, with the removal from the IPv6 trie when the IPv4 trie refuses. */
  function AddEntry(t: Table, e: Entry, force: bool): (Table, Code) {
    if !ValidEntry(e) then (t, Einval)
    else if !force && !BaseIsFree(t, e) then (t, Eexist)
    else
      var r6 := Add(t.trie6, KeyOf(e.prefix6), e);
      if !r6.Added? then (t, Eexist)
      else
        var r4 := Add(t.trie4, KeyOf(e.prefix4), e);
        if !r4.Added? then
          var back := Rm(r6.trie, KeyOf(e.prefix6));
          (t.(trie6 := if back.Some? then back.value else r6.trie), Eexist)
        else (Table(r6.trie, r4.trie, t.count + 1), Ok)
  }

  /** __rm */
  function RmBoth(t: Table, k6: Key, k4: Key): (Table, Code) {
    var r6 := Rm(t.trie6, k6);
    if r6.None? then (t, Esrch)
    else
      var r4 := Rm(t.trie4, k4);
      if r4.None? then (t.(trie6 := r6.value), Esrch)
      else (Table(r6.value, r4.value, t.count - 1), Ok)
  }

  /** get_exact6 and get_exact4: the longest match, if it is as long as what was asked for. */
  function GetExact(trie: Node<Entry>, p: Prefix): Option<Entry> {
    var r := Get(trie, KeyOf(p));
    if r.Some? && |r.value.0| == p.len then Some(r.value.1) else None
  }

  /** eamt_rm */
  function RmEntry(t: Table, p6: Option<Prefix>, p4: Option<Prefix>): (Table, Code) {
    if p6.None? && p4.None? then (t, Einval)
    else if p4.None? then
      var e := GetExact(t.trie6, p6.value);
      if e.None? then (t, Esrch) else RmBoth(t, KeyOf(p6.value), KeyOf(e.value.prefix4))
    else if p6.None? then
      var e := GetExact(t.trie4, p4.value);
      if e.None? then (t, Esrch) else RmBoth(t, KeyOf(e.value.prefix6), KeyOf(p4.value))
    else
      var e6, e4 := GetExact(t.trie6, p6.value), GetExact(t.trie4, p4.value);
      if e6.None? || e4.None? || e6 != e4 then (t, Esrch) else RmBoth(t, KeyOf(p6.value), KeyOf(p4.value))
  }

  // ------------------------------------------------------------------ both tries hold the same entries

  /** Every entry is stored under its IPv6 prefix in one trie and under its IPv4 prefix in the other. */
  ghost predicate Mirrors(t: Table) {
    && (forall k :: At(t.trie6, k).Some? ==>
          var e := At(t.trie6, k).value;
          ValidEntry(e) && KeyOf(e.prefix6) == k && At(t.trie4, KeyOf(e.prefix4)) == Some(e))
    && (forall k :: At(t.trie4, k).Some? ==>
          var e := At(t.trie4, k).value;
          ValidEntry(e) && KeyOf(e.prefix4) == k && At(t.trie6, KeyOf(e.prefix6)) == Some(e))
  }

  ghost predicate Consistent(t: Table) {
    && Trie.Valid(t.trie6) && Trie.Valid(t.trie4) && Mirrors(t)
    && Size(t.trie6) == t.count && Size(t.trie4) == t.count
  }

  ghost predicate SameEntries(t: Table, r: Table) {
    && (forall k :: At(r.trie6, k) == At(t.trie6, k)) && (forall k :: At(r.trie4, k) == At(t.trie4, k))
    && r.count == t.count
  }

  /** Exactly this entry more. */
  ghost predicate OneMore(t: Table, r: Table, e: Entry) {
    && (forall k :: At(r.trie6, k) == if k == KeyOf(e.prefix6) then Some(e) else At(t.trie6, k))
    && (forall k :: At(r.trie4, k) == if k == KeyOf(e.prefix4) then Some(e) else At(t.trie4, k))
    && r.count == t.count + 1
  }

  lemma MirrorsMore(t: Table, r: Table, e: Entry)
    requires Mirrors(t) && OneMore(t, r, e) && ValidEntry(e)
    requires At(t.trie6, KeyOf(e.prefix6)).None? && At(t.trie4, KeyOf(e.prefix4)).None?
    ensures Mirrors(r)
  {
    hide At, KeyOf, ValidEntry;
  }

  lemma MirrorsSame(t: Table, r: Table)
    requires Mirrors(t) && SameEntries(t, r)
    ensures Mirrors(r)
  {
    hide At, KeyOf, ValidEntry;
  }

  /** Neither prefix gets in the way of what is stored (see the trie). */
  predicate FitsIn(t: Table, e: Entry) {
    !Crowds(t.trie6, KeyOf(e.prefix6)) && !Crowds(t.trie4, KeyOf(e.prefix4))
  }

  /**
   The entry is in both tries or in none. It is refused exactly for: an invalid pair, a base address that is covered
   already (unless forced), and a prefix that is stored already. The tries are left fit for lookups if and only if the
   new prefixes do not crowd stored ones.
   */
  ghost predicate Inserted(t: Table, r: Table, e: Entry, force: bool, code: Code) {
    && (code.Ok? <==>
          && ValidEntry(e) && (force || BaseIsFree(t, e))
          && At(t.trie6, KeyOf(e.prefix6)).None? && At(t.trie4, KeyOf(e.prefix4)).None?)
    && (if code.Ok? then OneMore(t, r, e) else SameEntries(t, r))
    && Mirrors(r) && Size(r.trie6) == r.count && Size(r.trie4) == r.count
    && (Consistent(r) <==> !code.Ok? || FitsIn(t, e))
  }

  lemma AddEntryMeaning(t: Table, e: Entry, force: bool)
    requires Consistent(t)
    ensures var (r, code) := AddEntry(t, e, force);
            Inserted(t, r, e, force, code)
  {
    hide At, Add, Rm, Crowds, Trie.Valid, Size, Get;
    var k6, k4 := KeyOf(e.prefix6), KeyOf(e.prefix4);
    AddMeaning(t.trie6, k6, e);
    AddMeaning(t.trie4, k4, e);
    var r := AddEntry(t, e, force).0;
    if AddEntry(t, e, force).1.Ok? {
      MirrorsMore(t, r, e);
    } else {
      if Add(t.trie6, k6, e).Added? {
        RmUndoesAdd(t.trie6, k6, e);
      }
      MirrorsSame(t, r);
    }
  }

  /** Exactly this entry less. */
  ghost predicate OneLess(t: Table, r: Table, e: Entry) {
    && (forall k :: At(r.trie6, k) == if k == KeyOf(e.prefix6) then None else At(t.trie6, k))
    && (forall k :: At(r.trie4, k) == if k == KeyOf(e.prefix4) then None else At(t.trie4, k))
    && r.count == t.count - 1
  }

  lemma MirrorsLess(t: Table, r: Table, e: Entry)
    requires Mirrors(t) && OneLess(t, r, e) && At(t.trie6, KeyOf(e.prefix6)) == Some(e)
    ensures Mirrors(r)
  {
    hide At, KeyOf, ValidEntry;
  }

  lemma RmBothMeaning(t: Table, e: Entry)
    requires Consistent(t) && At(t.trie6, KeyOf(e.prefix6)) == Some(e)
    ensures var (r, code) := RmBoth(t, KeyOf(e.prefix6), KeyOf(e.prefix4));
            code.Ok? && Consistent(r) && OneLess(t, r, e)
  {
    hide At, Rm, Trie.Valid, Size, KeyOf, ValidEntry;
    var k6, k4 := KeyOf(e.prefix6), KeyOf(e.prefix4);
    RmMeaning(t.trie6, k6);
    RmMeaning(t.trie4, k4);
    MirrorsLess(t, RmBoth(t, k6, k4).0, e);
  }

  /** get_exact finds what is stored under exactly that prefix. */
  lemma GetExactMeaning(trie: Node<Entry>, p: Prefix)
    requires Trie.Valid(trie) && p.len <= |p.address|
    ensures GetExact(trie, p) == At(trie, KeyOf(p))
  {
    hide At, Trie.Valid;
    var k := KeyOf(p);
    LookupIsLongestPrefixMatch(trie, k);
    hide Get;
    var r := Get(trie, k);
    if r.Some? {
      assert r.value.0 <= k && (|r.value.0| == |k| ==> r.value.0 == k);
      assert k <= k;
    }
  }

  /** Which entry a removal request names. */
  ghost function Named(t: Table, p6: Option<Prefix>, p4: Option<Prefix>): Option<Entry> {
    var e6 := if p6.Some? then At(t.trie6, KeyOf(p6.value)) else None;
    var e4 := if p4.Some? then At(t.trie4, KeyOf(p4.value)) else None;
    if p6.Some? && p4.Some? then (if e6 == e4 then e6 else None)
    else if p6.Some? then e6 else e4
  }

  /** The entry both prefixes name has left both tries; the request fails only when there is none. */
  ghost predicate TakenOut(t: Table, r: Table, p6: Option<Prefix>, p4: Option<Prefix>, code: Code) {
    var e := Named(t, p6, p4);
    && Consistent(r)
    && (code.Ok? <==> e.Some?)
    && (if e.Some? then OneLess(t, r, e.value) else r == t)
  }

  lemma RmEntryMeaning(t: Table, p6: Option<Prefix>, p4: Option<Prefix>)
    requires Consistent(t) && (p6.Some? || p4.Some?)
    requires p6.Some? ==> p6.value.len <= |p6.value.address|
    requires p4.Some? ==> p4.value.len <= |p4.value.address|
    ensures var (r, code) := RmEntry(t, p6, p4);
            TakenOut(t, r, p6, p4, code)
  {
    hide At, Trie.Valid, Size, KeyOf, ValidEntry, RmBoth, GetExact;
    if p6.Some? {
      GetExactMeaning(t.trie6, p6.value);
    }
    if p4.Some? {
      GetExactMeaning(t.trie4, p4.value);
    }
    var e := Named(t, p6, p4);
    if e.Some? {
      RmBothMeaning(t, e.value);
    }
  }

  // ------------------------------------------------------------------ what the overlap check is worth

  /**
   Looking the base address up shows a prefix to be apart from every stored one if and only if no stored prefix lies
   inside it.
   */
  lemma OverlapCheckIff(trie: Node<Entry>, p: Prefix, width: nat)
    requires Trie.Valid(trie) && ValidPrefix(p, width)
    requires Get(trie, p.address).None?
    ensures (forall k :: At(trie, k).Some? ==> Apart(k, KeyOf(p))) <==>
            (forall k :: At(trie, k).Some? ==> !(KeyOf(p) <= k))
  {
    hide At, Trie.Valid;
    LookupIsLongestPrefixMatch(trie, p.address);
    assert KeyOf(p) <= p.address;
    forall k | At(trie, k).Some? && !(KeyOf(p) <= k) ensures Apart(k, KeyOf(p)) {
      assert !(k <= p.address);
    }
  }

  /** A prefix that passes the check although it overlaps: the stored one is not at its base address. */
  lemma OverlapExample(e: Entry, f: Entry)
    requires ValidEntry(e) && ValidEntry(f) && f.prefix6.len == 0 && f.prefix4.len == 1 && !f.prefix4.address[0]
    requires e.prefix6.len == 1 && e.prefix6.address[0] && e.prefix4.len == 1 && e.prefix4.address[0]
    ensures var t := AddEntry(EMPTY, e, false).0;
            t.trie6 == Leaf(KeyOf(e.prefix6), e) && BaseIsFree(t, f) && KeyOf(f.prefix6) <= KeyOf(e.prefix6)
  {
    var t := AddEntry(EMPTY, e, false).0;
    assert t.trie6 == Leaf(KeyOf(e.prefix6), e) && t.trie4 == Leaf(KeyOf(e.prefix4), e);
    assert !(KeyOf(e.prefix6) <= f.prefix6.address) by { assert KeyOf(e.prefix6)[0] != f.prefix6.address[0]; }
    assert !(KeyOf(e.prefix4) <= f.prefix4.address) by { assert KeyOf(e.prefix4)[0] != f.prefix4.address[0]; }
  }

  /** Prefixes apart from all stored ones fit, so tables of disjoint prefixes stay consistent. */
  lemma DisjointFits(t: Table, e: Entry)
    requires Consistent(t)
    requires forall k :: At(t.trie6, k).Some? ==> Apart(k, KeyOf(e.prefix6))
    requires forall k :: At(t.trie4, k).Some? ==> Apart(k, KeyOf(e.prefix4))
    ensures FitsIn(t, e)
  {
    ApartNeverCrowds(t.trie6, KeyOf(e.prefix6));
    ApartNeverCrowds(t.trie4, KeyOf(e.prefix4));
  }

  // ------------------------------------------------------------------ translation

  /** Tables whose entries do not overlap stay that way, and consistent, when an entry apart from all is added. */
  lemma DisjointStays(t: Table, e: Entry, force: bool)
    requires Consistent(t) && AllApart(t.trie6) && AllApart(t.trie4)
    requires forall k :: At(t.trie6, k).Some? ==> Apart(k, KeyOf(e.prefix6))
    requires forall k :: At(t.trie4, k).Some? ==> Apart(k, KeyOf(e.prefix4))
    ensures var r := AddEntry(t, e, force).0;
            Consistent(r) && AllApart(r.trie6) && AllApart(r.trie4)
  {
    DisjointFits(t, e);
    AddEntryMeaning(t, e, force);
    hide At, Consistent, AddEntry, KeyOf, ValidEntry, BaseIsFree, FitsIn;
  }

  /** The first `n` bits of `suffix` written over `address`, from position `at` on. */
  function Overwrite(address: Bits, at: nat, suffix: Bits, from: nat, n: nat): (r: Bits)
    requires at + n <= |address| && from + n <= |suffix|
    ensures |r| == |address|
  {
    address[..at] + suffix[from..from + n] + address[at + n..]
  }

  /** eamt_xlat_6to4 */
  function To4(t: Table, addr6: Bits): Option<Bits>
    requires |addr6| == 128
  {
    var r := Get(t.trie6, addr6);
    if r.None? || !ValidEntry(r.value.1) then None
    else
      var e := r.value.1;
      Some(Overwrite(e.prefix4.address, e.prefix4.len, addr6, e.prefix6.len, 32 - e.prefix4.len))
  }

  /** eamt_xlat_4to6 */
  function To6(t: Table, addr4: Bits): Option<Bits>
    requires |addr4| == 32
  {
    var r := Get(t.trie4, addr4);
    if r.None? || !ValidEntry(r.value.1) then None
    else
      var e := r.value.1;
      Some(Overwrite(e.prefix6.address, e.prefix6.len, addr4, e.prefix4.len, 32 - e.prefix4.len))
  }

  /** The entry a lookup finds, in a consistent table. */
  lemma Found6(t: Table, addr6: Bits)
    requires Consistent(t)
    ensures var r := Get(t.trie6, addr6);
            && (r.Some? <==> exists k: Key :: k <= addr6 && At(t.trie6, k).Some?)
            && (r.Some? ==> ValidEntry(r.value.1) && KeyOf(r.value.1.prefix6) <= addr6
                            && At(t.trie6, KeyOf(r.value.1.prefix6)) == Some(r.value.1)
                            && At(t.trie4, KeyOf(r.value.1.prefix4)) == Some(r.value.1))
  {
    hide Trie.Valid, Size, ValidEntry;
    LookupIsLongestPrefixMatch(t.trie6, addr6);
    hide Get;
    var r := Get(t.trie6, addr6);
    if r.Some? {
      var k: Key := r.value.0;
      assert At(t.trie6, k) == Some(r.value.1) && k <= addr6;
      assert exists j: Key :: j <= addr6 && At(t.trie6, j).Some?;
    }
  }

  lemma Found4(t: Table, addr4: Bits)
    requires Consistent(t)
    ensures var r := Get(t.trie4, addr4);
            && (r.Some? <==> exists k: Key :: k <= addr4 && At(t.trie4, k).Some?)
            && (r.Some? ==> ValidEntry(r.value.1) && KeyOf(r.value.1.prefix4) <= addr4
                            && At(t.trie4, KeyOf(r.value.1.prefix4)) == Some(r.value.1)
                            && At(t.trie6, KeyOf(r.value.1.prefix6)) == Some(r.value.1))
  {
    hide Trie.Valid, Size, ValidEntry;
    LookupIsLongestPrefixMatch(t.trie4, addr4);
    hide Get;
    var r := Get(t.trie4, addr4);
    if r.Some? {
      var k: Key := r.value.0;
      assert At(t.trie4, k) == Some(r.value.1) && k <= addr4;
      assert exists j: Key :: j <= addr4 && At(t.trie4, j).Some?;
    }
  }

  lemma OverwriteTwice(a: Bits, at: nat, b: Bits, from: nat, n: nat)
    requires at + n <= |a| && from + n == |b|
    ensures Overwrite(a, at, b, from, n)[at..at + n] == b[from..]
    ensures Overwrite(a, at, b, from, n)[..at] == a[..at]
  {
  }

  /** Two stored prefixes of one address are the same, where prefixes are disjoint. */
  lemma OnlyOne(trie: Node<Entry>, q: Bits, j: Key, k: Key)
    requires AllApart(trie) && At(trie, j).Some? && At(trie, k).Some? && j <= q && k <= q
    ensures j == k
  {
    hide At;
    assert |j| <= |k| ==> j <= k;
    assert |k| <= |j| ==> k <= j;
  }

  /** Every IPv4 address an entry covers comes back from its translation. */
  lemma RoundTrip46(t: Table, addr4: Bits)
    requires Consistent(t) && AllApart(t.trie6) && |addr4| == 32
    ensures To6(t, addr4).Some? <==> exists k: Key :: k <= addr4 && At(t.trie4, k).Some?
    ensures To6(t, addr4).Some? ==> |To6(t, addr4).value| == 128 && To4(t, To6(t, addr4).value) == Some(addr4)
  {
    hide At, Consistent, Get, AllApart, ValidEntry;
    Found4(t, addr4);
    var r := Get(t.trie4, addr4);
    if r.Some? {
      var e := r.value.1;
      EntryWidths(e);
      var n := 32 - e.prefix4.len;
      var addr6 := Overwrite(e.prefix6.address, e.prefix6.len, addr4, e.prefix4.len, n);
      OverwriteTwice(e.prefix6.address, e.prefix6.len, addr4, e.prefix4.len, n);
      Found6(t, addr6);
      assert KeyOf(e.prefix6) <= addr6;
      var back := Get(t.trie6, addr6).value.1;
      OnlyOne(t.trie6, addr6, KeyOf(e.prefix6), KeyOf(back.prefix6));
      assert back == e;
      WrittenBack(e, addr6, addr4);
    }
  }

  lemma WrittenBack(e: Entry, addr6: Bits, addr4: Bits)
    requires |e.prefix4.address| == 32 && |addr4| == 32 && e.prefix4.len <= 32 && KeyOf(e.prefix4) <= addr4
    requires e.prefix6.len + 32 - e.prefix4.len <= |addr6|
    requires addr6[e.prefix6.len..e.prefix6.len + 32 - e.prefix4.len] == addr4[e.prefix4.len..]
    ensures Overwrite(e.prefix4.address, e.prefix4.len, addr6, e.prefix6.len, 32 - e.prefix4.len) == addr4
  {
    assert addr4 == addr4[..e.prefix4.len] + addr4[e.prefix4.len..];
  }

  lemma EntryWidths(e: Entry)
    requires ValidEntry(e)
    ensures |e.prefix6.address| == 128 && |e.prefix4.address| == 32 && e.prefix4.len <= 32
    ensures e.prefix6.len + 32 - e.prefix4.len <= 128
  {
  }

  /** An IPv6 address comes back if and only if it has nothing after the bits that stand for IPv4's. */
  lemma RoundTrip64Iff(t: Table, addr6: Bits)
    requires Consistent(t) && AllApart(t.trie4) && |addr6| == 128
    ensures To4(t, addr6).Some? ==>
              var e := Get(t.trie6, addr6).value.1;
              To6(t, To4(t, addr6).value) == Some(addr6) <==>
              forall i :: e.prefix6.len + 32 - e.prefix4.len <= i < 128 ==> !addr6[i]
  {
    hide At, Consistent, Get, AllApart;
    Found6(t, addr6);
    var r := Get(t.trie6, addr6);
    if r.Some? {
      var e := r.value.1;
      var n := 32 - e.prefix4.len;
      var addr4 := Overwrite(e.prefix4.address, e.prefix4.len, addr6, e.prefix6.len, n);
      assert addr4[..e.prefix4.len] == KeyOf(e.prefix4);
      assert addr4[e.prefix4.len..] == addr6[e.prefix6.len..e.prefix6.len + n];
      Found4(t, addr4);
      var back := Get(t.trie4, addr4).value.1;
      OnlyOne(t.trie4, addr4, KeyOf(e.prefix4), KeyOf(back.prefix4));
      Rewritten(e, addr6, addr4);
    }
  }

  lemma Rewritten(e: Entry, addr6: Bits, addr4: Bits)
    requires ValidEntry(e) && |addr6| == 128 && |addr4| == 32 && KeyOf(e.prefix6) <= addr6
    requires addr4[e.prefix4.len..] == addr6[e.prefix6.len..e.prefix6.len + 32 - e.prefix4.len]
    ensures Overwrite(e.prefix6.address, e.prefix6.len, addr4, e.prefix4.len, 32 - e.prefix4.len) == addr6 <==>
            forall i :: e.prefix6.len + 32 - e.prefix4.len <= i < 128 ==> !addr6[i]
  {
    var n, at := 32 - e.prefix4.len, e.prefix6.len;
    var w := Overwrite(e.prefix6.address, at, addr4, e.prefix4.len, n);
    assert addr4[e.prefix4.len..e.prefix4.len + n] == addr4[e.prefix4.len..];
    assert w[..at] == addr6[..at] && w[at..at + n] == addr6[at..at + n];
    assert w[at + n..] == e.prefix6.address[at + n..];
    assert w == w[..at] + w[at..at + n] + w[at + n..];
    assert addr6 == addr6[..at] + addr6[at..at + n] + addr6[at + n..];
    assert forall i :: at + n <= i < 128 ==> !w[i];
  }

  // ------------------------------------------------------------------ runs

  datatype Request = Insertion(e: Entry, force: bool) | Removal(p6: Option<Prefix>, p4: Option<Prefix>)

  predicate WellFormed(q: Request) {
    q.Removal? ==>
      && (q.p6.Some? ==> q.p6.value.len <= |q.p6.value.address|)
      && (q.p4.Some? ==> q.p4.value.len <= |q.p4.value.address|)
  }

  function Serve(t: Table, q: Request): Table {
    match q
    case Insertion(e, force) => AddEntry(t, e, force).0
    case Removal(p6, p4) => RmEntry(t, p6, p4).0
  }

  function ServeAll(t: Table, qs: seq<Request>): Table
    decreases |qs|
  {
    if qs == [] then t else ServeAll(Serve(t, qs[0]), qs[1..])
  }

  ghost predicate AllWellFormed(qs: seq<Request>) {
    forall i :: 0 <= i < |qs| ==> WellFormed(qs[i])
  }

  /** Every entry that gets in fits. */
  ghost predicate AllFit(t: Table, qs: seq<Request>)
    decreases |qs|
  {
    qs != [] ==>
      && (qs[0].Insertion? && AddEntry(t, qs[0].e, qs[0].force).1.Ok? ==> FitsIn(t, qs[0].e))
      && AllFit(Serve(t, qs[0]), qs[1..])
  }

  ghost predicate AlwaysConsistent(t: Table, qs: seq<Request>)
    decreases |qs|
  {
    Consistent(t) && (qs != [] ==> AlwaysConsistent(Serve(t, qs[0]), qs[1..]))
  }

  lemma ServeIsConsistentIff(t: Table, q: Request)
    requires Consistent(t) && WellFormed(q)
    ensures Consistent(Serve(t, q)) <==> (q.Insertion? && AddEntry(t, q.e, q.force).1.Ok? ==> FitsIn(t, q.e))
  {
    hide Consistent, AddEntry, RmEntry, FitsIn;
    match q {
      case Insertion(e, force) => AddEntryMeaning(t, e, force);
      case Removal(p6, p4) => RemovalMeaning(t, p6, p4);
    }
  }

  /**
   Through a sequence of requests both tries stay valid and hold the same entries, as many as the count says, if and
   only if no entry that is accepted crowds; the first that does ends it.
   */
  lemma {:induction false} RequestsKeepTriesInStepIff(t: Table, qs: seq<Request>)
    requires Consistent(t) && AllWellFormed(qs)
    ensures AlwaysConsistent(t, qs) <==> AllFit(t, qs)
    ensures AllFit(t, qs) ==> Consistent(ServeAll(t, qs))
    decreases |qs|
  {
    hide Consistent, AddEntry, RmEntry, FitsIn;
    if qs == [] {
      assert AlwaysConsistent(t, qs) && ServeAll(t, qs) == t;
    } else {
      ServeIsConsistentIff(t, qs[0]);
      if Consistent(Serve(t, qs[0])) {
        RequestsKeepTriesInStepIff(Serve(t, qs[0]), qs[1..]);
      } else {
        InconsistentNow(Serve(t, qs[0]), qs[1..]);
      }
    }
  }

  lemma InconsistentNow(t: Table, qs: seq<Request>)
    requires !Consistent(t)
    ensures !AlwaysConsistent(t, qs)
  {
  }

  lemma RemovalMeaning(t: Table, p6: Option<Prefix>, p4: Option<Prefix>)
    requires Consistent(t) && WellFormed(Removal(p6, p4))
    ensures var (r, code) := RmEntry(t, p6, p4);
            TakenOut(t, r, p6, p4, code)
  {
    hide Consistent, RmEntry, OneLess;
    if p6.None? && p4.None? {
      NothingNamed(t);
    } else {
      RmEntryMeaning(t, p6, p4);
    }
  }

  lemma NothingNamed(t: Table)
    ensures RmEntry(t, None, None) == (t, Einval)
  {
  }

  // ------------------------------------------------------------------ the module

  class Eamt {
    var trie6: Node<Entry>
    var trie4: Node<Entry>
    var count: int

    ghost function Contents(): Table
      reads this
    {
      Table(trie6, trie4, count)
    }

    constructor ()
      ensures Contents() == EMPTY && Consistent(Contents())
    {
      trie6, trie4, count := Nil, Nil, 0;
    }

    method Insert(e: Entry, force: bool) returns (code: Code)
      modifies this
      ensures (Contents(), code) == AddEntry(old(Contents()), e, force)
      ensures Consistent(old(Contents())) ==> Inserted(old(Contents()), Contents(), e, force, code)
    {
      hide Add, Rm, Get, Consistent, Inserted;
      if Consistent(Contents()) {
        AddEntryMeaning(Contents(), e, force);
      }
      if !ValidEntry(e) {
        return Einval;
      }
      if !force {
        var over := Find(trie6, e.prefix6.address);
        if over.Some? {
          return Eexist;
        }
        over := Find(trie4, e.prefix4.address);
        if over.Some? {
          return Eexist;
        }
      }
      var r := Add(trie6, KeyOf(e.prefix6), e);
      if !r.Added? {
        return Eexist;
      }
      trie6 := r.trie;
      r := Add(trie4, KeyOf(e.prefix4), e);
      if !r.Added? {
        var back := Rm(trie6, KeyOf(e.prefix6));
        if back.Some? {
          trie6 := back.value;
        }
        return Eexist;
      }
      trie4 := r.trie;
      count := count + 1;
      return Ok;
    }

    /** The two keys of a stored entry: it leaves both tries. */
    method RemoveBoth(k6: Key, k4: Key) returns (code: Code)
      modifies this
      ensures (Contents(), code) == RmBoth(old(Contents()), k6, k4)
      ensures forall e: Entry | && Consistent(old(Contents())) && At(old(trie6), k6) == Some(e)
                                && KeyOf(e.prefix6) == k6 && KeyOf(e.prefix4) == k4
                :: code.Ok? && Consistent(Contents()) && OneLess(old(Contents()), Contents(), e)
    {
      hide Rm, Consistent, OneLess, At, KeyOf;
      forall e: Entry | && Consistent(Contents()) && At(trie6, k6) == Some(e)
                        && KeyOf(e.prefix6) == k6 && KeyOf(e.prefix4) == k4
        ensures var (r, code) := RmBoth(Contents(), k6, k4);
                code.Ok? && Consistent(r) && OneLess(Contents(), r, e)
      {
        RmBothMeaning(Contents(), e);
      }
      var r := Rm(trie6, k6);
      if r.None? {
        return Esrch;
      }
      trie6 := r.value;
      r := Rm(trie4, k4);
      if r.None? {
        return Esrch;
      }
      trie4 := r.value;
      count := count - 1;
      return Ok;
    }

    method Remove(p6: Option<Prefix>, p4: Option<Prefix>) returns (code: Code)
      modifies this
      ensures (Contents(), code) == RmEntry(old(Contents()), p6, p4)
      ensures Consistent(old(Contents())) && WellFormed(Removal(p6, p4)) ==>
                TakenOut(old(Contents()), Contents(), p6, p4, code)
    {
      hide RmBoth, GetExact, Consistent, TakenOut, KeyOf;
      if Consistent(Contents()) && WellFormed(Removal(p6, p4)) {
        RemovalMeaning(Contents(), p6, p4);
      }
      if p6.None? && p4.None? {
        return Einval;
      }
      var e6 := if p6.Some? then GetExact(trie6, p6.value) else None;
      var e4 := if p4.Some? then GetExact(trie4, p4.value) else None;
      if p4.None? {
        if e6.None? {
          return Esrch;
        }
        code := RemoveBoth(KeyOf(p6.value), KeyOf(e6.value.prefix4));
      } else if p6.None? {
        if e4.None? {
          return Esrch;
        }
        code := RemoveBoth(KeyOf(e4.value.prefix6), KeyOf(p4.value));
      } else {
        if e6.None? || e4.None? || e6 != e4 {
          return Esrch;
        }
        code := RemoveBoth(KeyOf(p6.value), KeyOf(p4.value));
      }
    }
  }

  /** eamt_xlat_6to4 */
  method Xlat6to4(t: Table, addr6: Bits) returns (r: Option<Bits>)
    requires |addr6| == 128 && Consistent(t)
    ensures r == To4(t, addr6)
    ensures r.Some? <==> exists k: Key :: k <= addr6 && At(t.trie6, k).Some?
  {
    hide Consistent;
    Found6(t, addr6);
    var found := Find(t.trie6, addr6);
    hide Get, ValidPrefix;
    if found.None? {
      return None;
    }
    var e := found.value.1;
    EntryWidths(e);
    var address := CopyBits(e.prefix4.address, e.prefix4.len, addr6, e.prefix6.len, 32 - e.prefix4.len);
    return Some(address);
  }

  /** eamt_xlat_4to6 */
  method Xlat4to6(t: Table, addr4: Bits) returns (r: Option<Bits>)
    requires |addr4| == 32 && Consistent(t)
    ensures r == To6(t, addr4)
    ensures r.Some? <==> exists k: Key :: k <= addr4 && At(t.trie4, k).Some?
  {
    hide Consistent;
    Found4(t, addr4);
    var found := Find(t.trie4, addr4);
    hide Get, ValidPrefix;
    if found.None? {
      return None;
    }
    var e := found.value.1;
    EntryWidths(e);
    var address := CopyBits(e.prefix6.address, e.prefix6.len, addr4, e.prefix4.len, 32 - e.prefix4.len);
    return Some(address);
  }

  /** The loop of eamt_xlat_6to4 and eamt_xlat_4to6: one bit at a time. */
  method CopyBits(address: Bits, at: nat, suffix: Bits, from: nat, n: nat) returns (r: Bits)
    requires at + n <= |address| && from + n <= |suffix|
    ensures r == Overwrite(address, at, suffix, from, n)
  {
    r := address;
    for i := 0 to n
      invariant |r| == |address|
      invariant forall j :: 0 <= j < |r| ==> r[j] == if at <= j < at + i then suffix[from + j - at] else address[j]
    {
      r := r[at + i := suffix[from + i]];
    }
  }
}
