/** IPv4 addresses inside IPv6 addresses (section 2.2 of RFC 6052) and the pool of prefixes they are put in. */
module Rfc6052 {

  import opened Types

  type Octet = x: nat | x < 256
  type Octets = seq<Octet>

  datatype Prefix6 = Prefix6(address: Octets, len: nat)

  predicate Legal(len: nat) { len in {32, 40, 48, 56, 64, 96} }

  /** validate_prefix: a legal length, and nothing after the prefix. */
  predicate ValidPrefix(p: Prefix6) {
    |p.address| == 16 && Legal(p.len) && forall i :: p.len / 8 <= i < 16 ==> p.address[i] == 0
  }

  /** ipv6_prefix_equal; all lengths are whole octets. */
  predicate Contains(p: Prefix6, a: Octets)
    requires |p.address| == 16 && |a| == 16 && p.len <= 128
  {
    p.address[..p.len / 8] == a[..p.len / 8]
  }

  /** addr_6to4 */
  function Extract(a: Octets, len: nat): Option<Octets>
    requires |a| == 16
  {
    if len == 32 then Some([a[4], a[5], a[6], a[7]])
    else if len == 40 then Some([a[5], a[6], a[7], a[9]])
    else if len == 48 then Some([a[6], a[7], a[9], a[10]])
    else if len == 56 then Some([a[7], a[9], a[10], a[11]])
    else if len == 64 then Some([a[9], a[10], a[11], a[12]])
    else if len == 96 then Some([a[12], a[13], a[14], a[15]])
    else None
  }

  /** addr_4to6: into an address of zeroes. */
  function Embed(a: Octets, p: Prefix6): Option<Octets>
    requires |a| == 4 && |p.address| == 16
  {
    var x := p.address;
    if p.len == 32 then Some([x[0], x[1], x[2], x[3], a[0], a[1], a[2], a[3], 0, 0, 0, 0, 0, 0, 0, 0])
    else if p.len == 40 then Some([x[0], x[1], x[2], x[3], x[4], a[0], a[1], a[2], 0, a[3], 0, 0, 0, 0, 0, 0])
    else if p.len == 48 then Some([x[0], x[1], x[2], x[3], x[4], x[5], a[0], a[1], 0, a[2], a[3], 0, 0, 0, 0, 0])
    else if p.len == 56 then Some([x[0], x[1], x[2], x[3], x[4], x[5], x[6], a[0], 0, a[1], a[2], a[3], 0, 0, 0, 0])
    else if p.len == 64 then Some([x[0], x[1], x[2], x[3], x[4], x[5], x[6], x[7], 0, a[0], a[1], a[2], a[3], 0, 0, 0])
    else if p.len == 96 then
      Some([x[0], x[1], x[2], x[3], x[4], x[5], x[6], x[7], x[8], x[9], x[10], x[11], a[0], a[1], a[2], a[3]])
    else None
  }

  predicate ValidPool(pool: seq<Prefix6>) {
    forall i :: 0 <= i < |pool| ==> ValidPrefix(pool[i])
  }

  /** pool6_get: the first prefix that contains the address. */
  function Get(pool: seq<Prefix6>, a: Octets): Option<Prefix6>
    requires ValidPool(pool) && |a| == 16
  {
    if pool == [] then None
    else if Contains(pool[0], a) then Some(pool[0])
    else Get(pool[1..], a)
  }

  /** rfc6052_6to4 */
  function To4(pool: seq<Prefix6>, a: Octets): Option<Octets>
    requires ValidPool(pool) && |a| == 16
  {
    var p := Get(pool, a);
    if p.None? then None else Extract(a, p.value.len)
  }

  /** rfc6052_4to6; pool6_peek gives the first prefix. */
  function To6(pool: seq<Prefix6>, a: Octets): Option<Octets>
    requires ValidPool(pool) && |a| == 4
  {
    if pool == [] then None else Embed(a, pool[0])
  }

  /** The bits the format leaves to the future: octet 8, except at /96, and whatever follows the IPv4 address. */
  predicate SpareBitsZero(a: Octets, len: nat)
    requires |a| == 16
  {
    && (len <= 64 ==> a[8] == 0)
    && (len == 32 ==> a[9..] == [0, 0, 0, 0, 0, 0, 0])
    && (len == 40 ==> a[10..] == [0, 0, 0, 0, 0, 0])
    && (len == 48 ==> a[11..] == [0, 0, 0, 0, 0])
    && (len == 56 ==> a[12..] == [0, 0, 0, 0])
    && (len == 64 ==> a[13..] == [0, 0, 0])
  }

  /** An embedded address lies in the prefix, its spare bits are zero, and the IPv4 address can be read back. */
  lemma EmbedMeaning(a: Octets, p: Prefix6)
    requires |a| == 4 && ValidPrefix(p)
    ensures var r := Embed(a, p);
            && r.Some? && |r.value| == 16
            && Contains(p, r.value) && SpareBitsZero(r.value, p.len) && (p.len == 96 ==> r.value[8] == p.address[8])
            && Extract(r.value, p.len) == Some(a)
  {
    assert [a[0], a[1], a[2], a[3]] == a;
    EmbedLies(a, p);
  }

  lemma EmbedLies(a: Octets, p: Prefix6)
    requires |a| == 4 && ValidPrefix(p)
    ensures Embed(a, p).Some? && |Embed(a, p).value| == 16 && Contains(p, Embed(a, p).value)
  {
    var r, n := Embed(a, p).value, p.len / 8;
    assert forall i :: 0 <= i < n ==> r[i] == p.address[i];
    assert r[..n] == p.address[..n];
  }

  /** And it is the only address in the prefix with those properties. */
  lemma EmbedUnique(a: Octets, p: Prefix6, x: Octets)
    requires |a| == 4 && ValidPrefix(p) && |x| == 16
    requires Contains(p, x) && SpareBitsZero(x, p.len) && Extract(x, p.len) == Some(a)
    ensures Embed(a, p) == Some(x)
  {
    var r := Embed(a, p).value;
    var n := p.len / 8;
    forall i | 0 <= i < 16 ensures r[i] == x[i] {
      if i < n {
        assert p.address[..n][i] == x[..n][i];
      } else {
        TailOctet(a, p, x, r, i);
      }
    }
    assert r == x;
  }

  lemma TailOctet(a: Octets, p: Prefix6, x: Octets, r: Octets, i: nat)
    requires |a| == 4 && ValidPrefix(p) && |x| == 16 && Embed(a, p) == Some(r) && |r| == 16
    requires SpareBitsZero(x, p.len) && Extract(x, p.len) == Some(a) && p.len / 8 <= i < 16
    ensures r[i] == x[i]
  {
    if p.len == 32 && i >= 9 { assert x[9..][i - 9] == x[i]; }
    if p.len == 40 && i >= 10 { assert x[10..][i - 10] == x[i]; }
    if p.len == 48 && i >= 11 { assert x[11..][i - 11] == x[i]; }
    if p.len == 56 && i >= 12 { assert x[12..][i - 12] == x[i]; }
    if p.len == 64 && i >= 13 { assert x[13..][i - 13] == x[i]; }
  }

  /** For every pool, whatever its prefixes, translating to IPv6 and back gives the address again. */
  lemma RoundTrip46(pool: seq<Prefix6>, a: Octets)
    requires ValidPool(pool) && pool != [] && |a| == 4
    ensures var r := To6(pool, a);
            && r.Some? && |r.value| == 16
            && Contains(pool[0], r.value)
            && (pool[0].len <= 64 ==> r.value[8] == 0)
            && (pool[0].len == 96 ==> r.value[8] == pool[0].address[8])
            && To4(pool, r.value) == Some(a)
  {
    EmbedMeaning(a, pool[0]);
  }

  /** Translating to IPv4 and back gives an address again if and only if it is one this pool would produce. */
  lemma RoundTrip64Iff(pool: seq<Prefix6>, x: Octets)
    requires ValidPool(pool) && |x| == 16 && To4(pool, x).Some?
    ensures pool != [] && |To4(pool, x).value| == 4
    ensures To6(pool, To4(pool, x).value) == Some(x) <==>
            Contains(pool[0], x) && SpareBitsZero(x, pool[0].len)
  {
    var a := To4(pool, x).value;
    EmbedMeaning(a, pool[0]);
    if Contains(pool[0], x) && SpareBitsZero(x, pool[0].len) {
      EmbedUnique(a, pool[0], x);
    }
  }

  /** The pool as the module keeps it: a list that grows at its end. */
  class Pool6 {
    var prefixes: seq<Prefix6>

    constructor ()
      ensures prefixes == [] && ValidPool(prefixes)
    {
      prefixes := [];
    }

    /** `single` says that only one prefix is allowed (SIIT). */
    method Add(p: Prefix6, single: bool, memory: bool) returns (ok: bool)
      requires ValidPool(prefixes)
      modifies this
      ensures ValidPool(prefixes)
      ensures ok <==> ValidPrefix(p) && !(single && old(prefixes) != []) && p !in old(prefixes) && memory
      ensures prefixes == if ok then old(prefixes) + [p] else old(prefixes)
    {
      if !ValidPrefix(p) || (single && prefixes != []) {
        return false;
      }
      for i := 0 to |prefixes|
        invariant p !in prefixes[..i]
        invariant prefixes == old(prefixes)
      {
        if prefixes[i] == p {
          return false;
        }
      }
      assert prefixes[..|prefixes|] == prefixes;
      if !memory {
        return false;
      }
      prefixes := prefixes + [p];
      return true;
    }

    method Lookup(a: Octets) returns (r: Option<Prefix6>)
      requires ValidPool(prefixes) && |a| == 16
      ensures r == Get(prefixes, a)
    {
      for i := 0 to |prefixes|
        invariant Get(prefixes, a) == Get(prefixes[i..], a)
      {
        assert prefixes[i..][0] == prefixes[i] && prefixes[i..][1..] == prefixes[i + 1..];
        if Contains(prefixes[i], a) {
          return Some(prefixes[i]);
        }
      }
      return None;
    }
  }
}
