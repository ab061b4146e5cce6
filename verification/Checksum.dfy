/**
 One's-complement checksums (section 1 of RFC 1071) and the incremental updates
 (section 3 of RFC 1624) a translator applies when a TCP, UDP or ICMP segment
 moves from one IP version to the other.

 A segment is a sequence of 16-bit words; an odd last octet is already padded.
 The arithmetic is the kernel's: 32-bit sums with end-around carry, folded to 16 bits.
 */
module Checksum {

  const NEXTHDR_ICMP := 58
  const CSUM_MANGLED_0: Word := 0xFFFF

  type Word = x: int | 0 <= x < 0x1_0000
  type Sum32 = x: int | 0 <= x < 0x1_0000_0000

  // ---------------------------------------------------------------- arithmetic

  function Not(x: Sum32): Sum32 {
    0xFFFF_FFFF - x
  }

  function CsumAdd(a: Sum32, b: Sum32): Sum32 {
    if a + b < 0x1_0000_0000 then a + b else a + b - 0xFFFF_FFFF
  }

  function CsumSub(a: Sum32, b: Sum32): Sum32 {
    CsumAdd(a, Not(b))
  }

  /** Adds the two halves twice, so the carry of the first addition is not lost. */
  function Fold(x: Sum32): Word {
    var once := x % 0x1_0000 + x / 0x1_0000;
    once % 0x1_0000 + once / 0x1_0000
  }

  function CsumFold(x: Sum32): Word {
    0xFFFF - Fold(x)
  }

  function CsumPartial(ws: seq<Word>, init: Sum32): Sum32
    decreases |ws|
  {
    if ws == [] then init else CsumPartial(ws[1..], CsumAdd(init, ws[0]))
  }

  // ------------------------------------------------- the reference: plain sums

  ghost function Sum(ws: seq<Word>): nat {
    if ws == [] then 0 else ws[0] + Sum(ws[1..])
  }

  /** How far a segment is from being intact; zero means intact. */
  ghost function Residue(ws: seq<Word>): nat {
    Sum(ws) % 0xFFFF
  }

  /** What a receiver computes over the pseudo-header, header and payload. */
  predicate Verifies(ws: seq<Word>) {
    CsumFold(CsumPartial(ws, 0)) == 0
  }

  lemma {:induction false} SumAppend(a: seq<Word>, b: seq<Word>)
    ensures Sum(a + b) == Sum(a) + Sum(b)
  {
    if a == [] {
      assert a + b == b;
    } else {
      assert (a + b)[1..] == a[1..] + b;
      SumAppend(a[1..], b);
    }
  }

  lemma {:induction false} SumUpdate(ws: seq<Word>, i: nat, w: Word)
    requires i < |ws|
    ensures Sum(ws[i := w]) == Sum(ws) - ws[i] + w
  {
    var before, after := ws[..i], ws[i + 1..];
    assert ws == before + ([ws[i]] + after) && ws[i := w] == before + ([w] + after);
    SumAppend(before, [ws[i]] + after);
    SumAppend(before, [w] + after);
  }

  // The next lemmas say, of each operation, that it agrees with plain arithmetic
  // up to k times 0xFFFF. Carrying k keeps every later proof linear.

  lemma AddK(a: Sum32, b: Sum32) returns (k: int)
    ensures CsumAdd(a, b) == a + b + k * 0xFFFF
    ensures a > 0 ==> CsumAdd(a, b) > 0
  {
    k := if a + b < 0x1_0000_0000 then 0 else -0x1_0001;
  }

  lemma SubK(a: Sum32, b: Sum32) returns (k: int)
    ensures CsumSub(a, b) == a - b + k * 0xFFFF
    ensures a > 0 ==> CsumSub(a, b) > 0
  {
    k := AddK(a, Not(b));
    k := k + 0x1_0001;
  }

  lemma FoldK(x: Sum32) returns (k: int)
    ensures Fold(x) == x + k * 0xFFFF
    ensures Fold(x) == 0 <==> x == 0
  {
    var once := x % 0x1_0000 + x / 0x1_0000;
    k := 0 - x / 0x1_0000 - once / 0x1_0000;
  }

  lemma {:induction false} PartialK(ws: seq<Word>, init: Sum32) returns (k: int)
    ensures CsumPartial(ws, init) == init + Sum(ws) + k * 0xFFFF
    ensures CsumPartial(ws, init) == 0 <==> init == 0 && Sum(ws) == 0
    decreases |ws|
  {
    if ws == [] {
      k := 0;
    } else {
      var k0 := AddK(init, ws[0]);
      k := PartialK(ws[1..], CsumAdd(init, ws[0]));
      k := k + k0;
    }
  }

  lemma SameResidue(a: int, b: int, k: int)
    requires a == b + k * 0xFFFF
    ensures a % 0xFFFF == b % 0xFFFF
  {
  }

  /** The receiver's test accepts exactly the non-zero multiples of 0xFFFF. */
  lemma VerifiesIff(ws: seq<Word>)
    ensures Verifies(ws) <==> Residue(ws) == 0 && Sum(ws) > 0
  {
    hide Sum, CsumPartial, Fold;
    var total := CsumPartial(ws, 0);
    var k1 := PartialK(ws, 0);
    var k2 := FoldK(total);
    SameResidue(Fold(total), Sum(ws), k1 + k2);
    WordResidue(Fold(total));
  }

  lemma WordResidue(w: Word)
    ensures w % 0xFFFF == 0 <==> w == 0 || w == 0xFFFF
  {
  }

  // ------------------------------------------------------------ pseudo-headers

  /** An IPv6 pseudo-header: two addresses of eight words, 32-bit length, next header. */
  function Pseudo6(src: seq<Word>, dst: seq<Word>, len: Word, proto: Word): seq<Word> {
    src + dst + [0, len, 0, proto]
  }

  function Pseudo4(src: seq<Word>, dst: seq<Word>, len: Word, proto: Word): seq<Word> {
    src + dst + [proto, len]
  }

  function CsumIpv6Magic(src: seq<Word>, dst: seq<Word>, len: Word, proto: Word, init: Sum32): Word {
    CsumFold(CsumPartial(Pseudo6(src, dst, len, proto), init))
  }

  function CsumTcpudpNofold(src: seq<Word>, dst: seq<Word>, len: Word, proto: Word, init: Sum32): Sum32 {
    CsumPartial(Pseudo4(src, dst, len, proto), init)
  }

  lemma SumPseudo(src: seq<Word>, dst: seq<Word>, len: Word, proto: Word)
    ensures Sum(Pseudo6(src, dst, len, proto)) == Sum(src) + Sum(dst) + len + proto
    ensures Sum(Pseudo4(src, dst, len, proto)) == Sum(src) + Sum(dst) + len + proto
  {
    SumAppend(src + dst, [0, len, 0, proto]);
    SumAppend(src + dst, [proto, len]);
    SumAppend(src, dst);
    assert [0, len, 0, proto][1..][1..][1..] == [proto];
    assert Sum([0, len, 0, proto][1..][1..][1..]) == proto;
    assert Sum([0, len, 0, proto][1..][1..]) == proto;
    assert Sum([0, len, 0, proto][1..]) == len + proto;
    assert [proto, len][1..] == [len];
  }

  lemma SumSegment(pseudo: seq<Word>, hdr: seq<Word>, payload: seq<Word>)
    ensures Sum(pseudo + hdr + payload) == Sum(pseudo) + Sum(hdr) + Sum(payload)
  {
    SumAppend(pseudo + hdr, payload);
    SumAppend(pseudo, hdr);
  }

  // ----------------------------------------------- TCP and UDP, full checksums

  /** Both IP versions' addresses of one packet, before and after translation. */
  datatype Addrs = Addrs(src6: seq<Word>, dst6: seq<Word>, src4: seq<Word>, dst4: seq<Word>)

  function UpdateCsum64(csum16: Word, a: Addrs, inHdr: seq<Word>, outHdr: seq<Word>): Word {
    var c0 := Not(csum16);
    var c1 := CsumSub(c0, Not(CsumIpv6Magic(a.src6, a.dst6, 0, 0, 0)));
    var c2 := CsumSub(c1, CsumPartial(inHdr, 0));
    var c3 := CsumAdd(c2, CsumTcpudpNofold(a.src4, a.dst4, 0, 0, 0));
    CsumFold(CsumAdd(c3, CsumPartial(outHdr, 0)))
  }

  function UpdateCsum46(csum16: Word, a: Addrs, inHdr: seq<Word>, outHdr: seq<Word>): Word {
    var c0 := Not(csum16);
    var c1 := CsumSub(c0, CsumTcpudpNofold(a.src4, a.dst4, 0, 0, 0));
    var c2 := CsumSub(c1, CsumPartial(inHdr, 0));
    var c3 := CsumAdd(c2, Not(CsumIpv6Magic(a.src6, a.dst6, 0, 0, 0)));
    CsumFold(CsumAdd(c3, CsumPartial(outHdr, 0)))
  }

  /** Complementing a folded sum twice gives back the sum. */
  lemma MagicK(src: seq<Word>, dst: seq<Word>, len: Word, proto: Word) returns (k: int)
    ensures Not(CsumIpv6Magic(src, dst, len, proto, 0)) == Sum(src) + Sum(dst) + len + proto + k * 0xFFFF
  {
    SumPseudo(src, dst, len, proto);
    var k1 := PartialK(Pseudo6(src, dst, len, proto), 0);
    var k2 := FoldK(CsumPartial(Pseudo6(src, dst, len, proto), 0));
    k := k1 + k2 + 0x1_0000;
  }

  /** The final complement negates the accumulated sum; it never yields 0xFFFF from a positive sum. */
  lemma CsumFoldK(c: Sum32) returns (k: int)
    ensures CsumFold(c) == k * 0xFFFF - c
    ensures c > 0 ==> CsumFold(c) < 0xFFFF
  {
    k := FoldK(c);
    k := 1 - k;
  }

  lemma UpdateCsum64Meaning(csum16: Word, a: Addrs, inHdr: seq<Word>, outHdr: seq<Word>) returns (k: int)
    ensures var r := UpdateCsum64(csum16, a, inHdr, outHdr);
            && r + Sum(a.src4) + Sum(a.dst4) + Sum(outHdr)
               == csum16 + Sum(a.src6) + Sum(a.dst6) + Sum(inHdr) + k * 0xFFFF
            && r < 0xFFFF
  {
    SumPseudo(a.src4, a.dst4, 0, 0);
    var m6, m4 := Not(CsumIpv6Magic(a.src6, a.dst6, 0, 0, 0)), CsumTcpudpNofold(a.src4, a.dst4, 0, 0, 0);
    var k6 := MagicK(a.src6, a.dst6, 0, 0);
    var k4 := PartialK(Pseudo4(a.src4, a.dst4, 0, 0), 0);
    var ki := PartialK(inHdr, 0);
    var ko := PartialK(outHdr, 0);
    var c0 := Not(csum16);
    var k1 := SubK(c0, m6);
    var c1 := CsumSub(c0, m6);
    var k2 := SubK(c1, CsumPartial(inHdr, 0));
    var c2 := CsumSub(c1, CsumPartial(inHdr, 0));
    var k3 := AddK(c2, m4);
    var c3 := CsumAdd(c2, m4);
    var k5 := AddK(c3, CsumPartial(outHdr, 0));
    var k7 := CsumFoldK(CsumAdd(c3, CsumPartial(outHdr, 0)));
    k := k7 - k5 - k3 - k2 - k1 + k6 - k4 + ki - ko - 0x1_0001;
  }

  lemma UpdateCsum46Meaning(csum16: Word, a: Addrs, inHdr: seq<Word>, outHdr: seq<Word>) returns (k: int)
    ensures var r := UpdateCsum46(csum16, a, inHdr, outHdr);
            && r + Sum(a.src6) + Sum(a.dst6) + Sum(outHdr)
               == csum16 + Sum(a.src4) + Sum(a.dst4) + Sum(inHdr) + k * 0xFFFF
            && r < 0xFFFF
  {
    SumPseudo(a.src4, a.dst4, 0, 0);
    var m6, m4 := Not(CsumIpv6Magic(a.src6, a.dst6, 0, 0, 0)), CsumTcpudpNofold(a.src4, a.dst4, 0, 0, 0);
    var k6 := MagicK(a.src6, a.dst6, 0, 0);
    var k4 := PartialK(Pseudo4(a.src4, a.dst4, 0, 0), 0);
    var ki := PartialK(inHdr, 0);
    var ko := PartialK(outHdr, 0);
    var c0 := Not(csum16);
    var k1 := SubK(c0, m4);
    var c1 := CsumSub(c0, m4);
    var k2 := SubK(c1, CsumPartial(inHdr, 0));
    var c2 := CsumSub(c1, CsumPartial(inHdr, 0));
    var k3 := AddK(c2, m6);
    var c3 := CsumAdd(c2, m6);
    var k5 := AddK(c3, CsumPartial(outHdr, 0));
    var k7 := CsumFoldK(CsumAdd(c3, CsumPartial(outHdr, 0)));
    k := k7 - k5 - k3 - k2 - k1 - k6 + k4 + ki - ko - 0x1_0001;
  }

  /**
   The checksum of a translated header. `hdr` is the incoming header, `out` the
   outgoing one before its checksum is filled in, `c` where both keep the
   checksum (word 8 for TCP, word 3 for UDP).
   */
  function Ttp64Tcp(a: Addrs, hdr: seq<Word>, out: seq<Word>, c: nat): (r: seq<Word>)
    requires c < |hdr| && c < |out|
  {
    out[c := UpdateCsum64(hdr[c], a, hdr[c := 0], out[c := 0])]
  }

  function Ttp64Udp(a: Addrs, hdr: seq<Word>, out: seq<Word>, c: nat): (r: seq<Word>)
    requires c < |hdr| && c < |out|
  {
    var check := UpdateCsum64(hdr[c], a, hdr[c := 0], out[c := 0]);
    out[c := if check == 0 then CSUM_MANGLED_0 else check]
  }

  /** Also what ttp46_udp does when the incoming checksum is not zero. */
  function Ttp46Tcp(a: Addrs, hdr: seq<Word>, out: seq<Word>, c: nat): (r: seq<Word>)
    requires c < |hdr| && c < |out|
  {
    out[c := UpdateCsum46(hdr[c], a, hdr[c := 0], out[c := 0])]
  }

  /** Sums of the two headers around a replaced checksum word. */
  lemma SumHeader(hdr: seq<Word>, c: nat, w: Word)
    requires c < |hdr|
    ensures Sum(hdr) == Sum(hdr[c := 0]) + hdr[c]
    ensures Sum(hdr[c := w]) == Sum(hdr[c := 0]) + w
  {
    SumUpdate(hdr, c, 0);
    SumUpdate(hdr, c, w);
  }

  /** Two segments whose sums differ by a multiple of 0xFFFF are equally corrupt. */
  lemma SameVerdict(before: seq<Word>, after: seq<Word>, k: int)
    requires Sum(after) == Sum(before) + k * 0xFFFF
    ensures Residue(before) == Residue(after)
    ensures Sum(before) > 0 && Sum(after) > 0 ==> (Verifies(before) <==> Verifies(after))
  {
    SameResidue(Sum(after), Sum(before), k);
    VerifiesIff(before);
    VerifiesIff(after);
  }

  /**
   TCP and UDP, IPv6 to IPv4: whatever happened to addresses, ports and other
   header words, the new segment is exactly as corrupt as the old one.
   */
  lemma Translate64KeepsResidue(a: Addrs, hdr: seq<Word>, out: seq<Word>, c: nat, payload: seq<Word>,
                                len: Word, proto: Word)
    requires c < |hdr| && c < |out|
    requires proto > 0
    ensures var before := Pseudo6(a.src6, a.dst6, len, proto) + hdr + payload;
            var tcp := Pseudo4(a.src4, a.dst4, len, proto) + Ttp64Tcp(a, hdr, out, c) + payload;
            var udp := Pseudo4(a.src4, a.dst4, len, proto) + Ttp64Udp(a, hdr, out, c) + payload;
            && Residue(tcp) == Residue(before) && (Verifies(tcp) <==> Verifies(before))
            && Residue(udp) == Residue(before) && (Verifies(udp) <==> Verifies(before))
            && Ttp64Udp(a, hdr, out, c)[c] != 0
  {
    var p6, p4 := Pseudo6(a.src6, a.dst6, len, proto), Pseudo4(a.src4, a.dst4, len, proto);
    var tcp, udp := Ttp64Tcp(a, hdr, out, c), Ttp64Udp(a, hdr, out, c);
    var k := UpdateCsum64Meaning(hdr[c], a, hdr[c := 0], out[c := 0]);
    SumPseudo(a.src6, a.dst6, len, proto);
    SumPseudo(a.src4, a.dst4, len, proto);
    SumSegment(p6, hdr, payload);
    SumSegment(p4, tcp, payload);
    SumSegment(p4, udp, payload);
    SumHeader(hdr, c, 0);
    SumHeader(out, c, tcp[c]);
    SumHeader(out, c, udp[c]);
    SameVerdict(p6 + hdr + payload, p4 + tcp + payload, k);
    SameVerdict(p6 + hdr + payload, p4 + udp + payload, if tcp[c] == 0 then k + 1 else k);
  }

  /** TCP and UDP with a checksum, IPv4 to IPv6. */
  lemma Translate46KeepsResidue(a: Addrs, hdr: seq<Word>, out: seq<Word>, c: nat, payload: seq<Word>,
                                len: Word, proto: Word)
    requires c < |hdr| && c < |out|
    requires proto > 0
    ensures var before := Pseudo4(a.src4, a.dst4, len, proto) + hdr + payload;
            var after := Pseudo6(a.src6, a.dst6, len, proto) + Ttp46Tcp(a, hdr, out, c) + payload;
            Residue(after) == Residue(before) && (Verifies(after) <==> Verifies(before))
  {
    var p6, p4 := Pseudo6(a.src6, a.dst6, len, proto), Pseudo4(a.src4, a.dst4, len, proto);
    var tcp := Ttp46Tcp(a, hdr, out, c);
    var k := UpdateCsum46Meaning(hdr[c], a, hdr[c := 0], out[c := 0]);
    SumPseudo(a.src6, a.dst6, len, proto);
    SumPseudo(a.src4, a.dst4, len, proto);
    SumSegment(p4, hdr, payload);
    SumSegment(p6, tcp, payload);
    SumHeader(hdr, c, 0);
    SumHeader(out, c, tcp[c]);
    SameVerdict(p4 + hdr + payload, p6 + tcp + payload, k);
  }

  /**
   Over IPv6 a UDP checksum field of zero is illegal (section 8.1 of RFC 2460), and
   ttp46_udp does not replace a computed zero as ttp64_udp does. An intact
   datagram gets a zero field exactly when the rest of it already sums to a
   multiple of 0xFFFF.
   */
  lemma Udp46ZeroField(a: Addrs, hdr: seq<Word>, out: seq<Word>, c: nat, payload: seq<Word>,
                       len: Word, proto: Word)
    requires c < |hdr| && c < |out|
    requires proto > 0
    requires Verifies(Pseudo4(a.src4, a.dst4, len, proto) + hdr + payload)
    ensures Ttp46Tcp(a, hdr, out, c)[c] == 0
       <==> Residue(Pseudo6(a.src6, a.dst6, len, proto) + out[c := 0] + payload) == 0
  {
    var p6 := Pseudo6(a.src6, a.dst6, len, proto);
    var udp := Ttp46Tcp(a, hdr, out, c);
    Translate46KeepsResidue(a, hdr, out, c, payload, len, proto);
    VerifiesIff(p6 + udp + payload);
    var _ := UpdateCsum46Meaning(hdr[c], a, hdr[c := 0], out[c := 0]);
    SumSegment(p6, udp, payload);
    SumSegment(p6, out[c := 0], payload);
    SumHeader(out, c, udp[c]);
    SmallResidue(Sum(p6 + out[c := 0] + payload), udp[c]);
  }

  lemma SmallResidue(a: nat, d: nat)
    requires (a + d) % 0xFFFF == 0 && d < 0xFFFF
    ensures a % 0xFFFF == 0 <==> d == 0
  {
  }

  lemma SumFour(a: Word, b: Word, c: Word, d: Word)
    ensures Sum([a, b, c, d]) == a + b + c + d
  {
    SumTwo(a, b);
    SumTwo(c, d);
    SumAppend([a, b], [c, d]);
    assert [a, b] + [c, d] == [a, b, c, d];
  }

  lemma SumTwo(a: Word, b: Word)
    ensures Sum([a, b]) == a + b
  {
    SumOne(a);
    SumOne(b);
    SumAppend([a], [b]);
    assert [a] + [b] == [a, b];
  }

  lemma SumOne(a: Word)
    ensures Sum([a]) == a
  {
    assert [a][1..] == [];
  }

  /** 64:ff9b::203.0.113.5, which stands for 203.0.113.5, and 2001:db8::8, which owns 192.0.2.1. */
  const REMOTE6: seq<Word> := [0x64, 0xFF9B, 0, 0] + [0, 0, 0xCB00, 0x7105]
  const LOCAL6: seq<Word> := [0x2001, 0xDB8, 0, 0] + [0, 0, 0, 8]
  const REMOTE4: seq<Word> := [0xCB00, 0x7105]
  const LOCAL4: seq<Word> := [0xC000, 0x0201]

  lemma ExampleSums()
    ensures Sum(REMOTE6) == 0x64 + 0xFF9B + 0xCB00 + 0x7105 && Sum(LOCAL6) == 0x2001 + 0xDB8 + 8
    ensures Sum(REMOTE4) == 0xCB00 + 0x7105 && Sum(LOCAL4) == 0xC000 + 0x0201
  {
    SumFour(0x64, 0xFF9B, 0, 0);
    SumFour(0, 0, 0xCB00, 0x7105);
    SumAppend([0x64, 0xFF9B, 0, 0], [0, 0, 0xCB00, 0x7105]);
    SumFour(0x2001, 0xDB8, 0, 0);
    SumFour(0, 0, 0, 8);
    SumAppend([0x2001, 0xDB8, 0, 0], [0, 0, 0, 8]);
    SumTwo(0xCB00, 0x7105);
    SumTwo(0xC000, 0x0201);
  }

  /**
   A datagram whose field becomes zero: ten octets from 203.0.113.5, port 5000, to port 1024 of 192.0.2.1, which stands
   for port 2048 of 2001:db8::8.
   */
  lemma Udp46ZeroFieldExample()
    ensures var a := Addrs(REMOTE6, LOCAL6, REMOTE4, LOCAL4);
            var hdr: seq<Word> := [5000, 1024, 10, 0x6FBF];
            var out: seq<Word> := [5000, 2048, 10, 0x6FBF];
            var payload: seq<Word> := [0x7A8B];
            Verifies(Pseudo4(a.src4, a.dst4, 10, 17) + hdr + payload) && Ttp46Tcp(a, hdr, out, 3)[3] == 0
  {
    hide Pseudo4, Pseudo6, Sum, Verifies, Ttp46Tcp;
    var a := Addrs(REMOTE6, LOCAL6, REMOTE4, LOCAL4);
    var hdr: seq<Word> := [5000, 1024, 10, 0x6FBF];
    var out: seq<Word> := [5000, 2048, 10, 0x6FBF];
    var payload: seq<Word> := [0x7A8B];
    ExampleSums();
    SumFour(5000, 1024, 10, 0x6FBF);
    SumFour(5000, 2048, 10, 0);
    SumOne(0x7A8B);
    assert out[3 := 0] == [5000, 2048, 10, 0];
    SumPseudo(a.src4, a.dst4, 10, 17);
    SumPseudo(a.src6, a.dst6, 10, 17);
    SumSegment(Pseudo4(a.src4, a.dst4, 10, 17), hdr, payload);
    SumSegment(Pseudo6(a.src6, a.dst6, 10, 17), out[3 := 0], payload);
    VerifiesIff(Pseudo4(a.src4, a.dst4, 10, 17) + hdr + payload);
    Udp46ZeroField(a, hdr, out, 3, payload, 10, 17);
  }

  predicate AllZero(ws: seq<Word>) {
    forall i :: 0 <= i < |ws| ==> ws[i] == 0
  }

  lemma {:induction false} SumZeros(ws: seq<Word>)
    ensures Sum(ws) == 0 <==> AllZero(ws)
  {
    if ws == [] {
    } else {
      SumZeros(ws[1..]);
      assert AllZero(ws) <==> ws[0] == 0 && AllZero(ws[1..]) by {
        assert forall i :: 1 <= i < |ws| ==> ws[i] == ws[1..][i - 1];
      }
    }
  }

  /** An IPv4 UDP datagram without checksum gets one computed; the result is always intact. */
  function HandleZeroCsum(a: Addrs, out: seq<Word>, c: nat, payload: seq<Word>, len: Word): seq<Word>
    requires c < |out| && out[c] == 0
  {
    out[c := CsumIpv6Magic(a.src6, a.dst6, len, 17, CsumPartial(payload, CsumPartial(out, 0)))]
  }

  lemma HandleZeroCsumVerifies(a: Addrs, out: seq<Word>, c: nat, payload: seq<Word>, len: Word)
    requires c < |out| && out[c] == 0
    ensures Verifies(Pseudo6(a.src6, a.dst6, len, 17) + HandleZeroCsum(a, out, c, payload, len) + payload)
  {
    var p6 := Pseudo6(a.src6, a.dst6, len, 17);
    var udp := HandleZeroCsum(a, out, c, payload, len);
    var init := CsumPartial(payload, CsumPartial(out, 0));
    var k1 := PartialK(out, 0);
    var k2 := PartialK(payload, CsumPartial(out, 0));
    var k3 := PartialK(p6, init);
    var k4 := CsumFoldK(CsumPartial(p6, init));
    SumPseudo(a.src6, a.dst6, len, 17);
    assert out[c := 0] == out;
    SumHeader(out, c, udp[c]);
    SumSegment(p6, udp, payload);
    SameResidue(Sum(p6 + udp + payload), 0, k4 - k3 - k2 - k1);
    VerifiesIff(p6 + udp + payload);
  }

  // ------------------------------------------------------ pseudo-header only

  /** For packets whose checksum field covers the pseudo-header only; a network card completes it. */
  function UpdateCsum64Partial(csum16: Word, a: Addrs): Word {
    var c1 := CsumSub(csum16, Not(CsumIpv6Magic(a.src6, a.dst6, 0, 0, 0)));
    0xFFFF - CsumFold(CsumAdd(c1, CsumTcpudpNofold(a.src4, a.dst4, 0, 0, 0)))
  }

  function UpdateCsum46Partial(csum16: Word, a: Addrs): Word {
    var c1 := CsumSub(csum16, CsumTcpudpNofold(a.src4, a.dst4, 0, 0, 0));
    0xFFFF - CsumFold(CsumAdd(c1, Not(CsumIpv6Magic(a.src6, a.dst6, 0, 0, 0))))
  }

  /** A field holding one version's pseudo-header sum is turned into the other version's. */
  lemma PartialTranslatesPseudoHeader(csum16: Word, a: Addrs, len: Word, proto: Word)
    ensures csum16 % 0xFFFF == Residue(Pseudo6(a.src6, a.dst6, len, proto))
       <==> UpdateCsum64Partial(csum16, a) % 0xFFFF == Residue(Pseudo4(a.src4, a.dst4, len, proto))
    ensures csum16 % 0xFFFF == Residue(Pseudo4(a.src4, a.dst4, len, proto))
       <==> UpdateCsum46Partial(csum16, a) % 0xFFFF == Residue(Pseudo6(a.src6, a.dst6, len, proto))
  {
    SumPseudo(a.src4, a.dst4, 0, 0);
    SumPseudo(a.src6, a.dst6, len, proto);
    SumPseudo(a.src4, a.dst4, len, proto);
    var p6, p4 := Sum(Pseudo6(a.src6, a.dst6, len, proto)), Sum(Pseudo4(a.src4, a.dst4, len, proto));
    var m6, m4 := Not(CsumIpv6Magic(a.src6, a.dst6, 0, 0, 0)), CsumTcpudpNofold(a.src4, a.dst4, 0, 0, 0);
    var k6 := MagicK(a.src6, a.dst6, 0, 0);
    var k4 := PartialK(Pseudo4(a.src4, a.dst4, 0, 0), 0);
    var k1 := SubK(csum16, m6);
    var k2 := AddK(CsumSub(csum16, m6), m4);
    var k3 := FoldK(CsumAdd(CsumSub(csum16, m6), m4));
    ShiftedResidue(csum16, p6, UpdateCsum64Partial(csum16, a), p4, k1 + k2 + k3 - k6 + k4);
    var k5 := SubK(csum16, m4);
    var k7 := AddK(CsumSub(csum16, m4), m6);
    var k8 := FoldK(CsumAdd(CsumSub(csum16, m4), m6));
    ShiftedResidue(csum16, p4, UpdateCsum46Partial(csum16, a), p6, k5 + k7 + k8 - k4 + k6);
  }

  lemma ShiftedResidue(a: int, p: int, b: int, q: int, k: int)
    requires b - q == a - p + k * 0xFFFF
    ensures a % 0xFFFF == p % 0xFFFF <==> b % 0xFFFF == q % 0xFFFF
  {
    if a % 0xFFFF == p % 0xFFFF {
      SameResidue(b, q, a / 0xFFFF - p / 0xFFFF + k);
    }
    if b % 0xFFFF == q % 0xFFFF {
      SameResidue(a, p, b / 0xFFFF - q / 0xFFFF - k);
    }
  }

  // ------------------------------------------------------- ICMP informational

  /** There is no ICMPv4 pseudo-header, so all of the ICMPv6 one is taken out. */
  function UpdateIcmp4Csum(csum16: Word, a: Addrs, len: Word, inHdr: seq<Word>, outHdr: seq<Word>): Word {
    var c0 := Not(csum16);
    var c1 := CsumSub(c0, Not(CsumIpv6Magic(a.src6, a.dst6, len, NEXTHDR_ICMP, 0)));
    var c2 := CsumSub(c1, CsumPartial(inHdr, 0));
    CsumFold(CsumAdd(c2, CsumPartial(outHdr, 0)))
  }

  function UpdateIcmp6Csum(csum16: Word, a: Addrs, len: Word, inHdr: seq<Word>, outHdr: seq<Word>): Word {
    var c1 := CsumSub(Not(csum16), CsumPartial(inHdr, 0));
    CsumIpv6Magic(a.src6, a.dst6, len, NEXTHDR_ICMP, CsumAdd(c1, CsumPartial(outHdr, 0)))
  }

  lemma UpdateIcmp4CsumMeaning(csum16: Word, a: Addrs, len: Word, inHdr: seq<Word>, outHdr: seq<Word>)
    returns (k: int)
    ensures var r := UpdateIcmp4Csum(csum16, a, len, inHdr, outHdr);
            && r + Sum(outHdr)
               == csum16 + Sum(a.src6) + Sum(a.dst6) + len + NEXTHDR_ICMP + Sum(inHdr) + k * 0xFFFF
            && r < 0xFFFF
  {
    var m6 := Not(CsumIpv6Magic(a.src6, a.dst6, len, NEXTHDR_ICMP, 0));
    var k6 := MagicK(a.src6, a.dst6, len, NEXTHDR_ICMP);
    var ki := PartialK(inHdr, 0);
    var ko := PartialK(outHdr, 0);
    var k1 := SubK(Not(csum16), m6);
    var c1 := CsumSub(Not(csum16), m6);
    var k2 := SubK(c1, CsumPartial(inHdr, 0));
    var c2 := CsumSub(c1, CsumPartial(inHdr, 0));
    var k3 := AddK(c2, CsumPartial(outHdr, 0));
    var k4 := CsumFoldK(CsumAdd(c2, CsumPartial(outHdr, 0)));
    k := k4 - k3 - k2 - k1 + k6 + ki - ko - 0x1_0001;
  }

  lemma UpdateIcmp6CsumMeaning(csum16: Word, a: Addrs, len: Word, inHdr: seq<Word>, outHdr: seq<Word>)
    returns (k: int)
    ensures UpdateIcmp6Csum(csum16, a, len, inHdr, outHdr)
            + Sum(a.src6) + Sum(a.dst6) + len + NEXTHDR_ICMP + Sum(outHdr)
         == csum16 + Sum(inHdr) + k * 0xFFFF
  {
    SumPseudo(a.src6, a.dst6, len, NEXTHDR_ICMP);
    var ki := PartialK(inHdr, 0);
    var ko := PartialK(outHdr, 0);
    var k1 := SubK(Not(csum16), CsumPartial(inHdr, 0));
    var c1 := CsumSub(Not(csum16), CsumPartial(inHdr, 0));
    var k2 := AddK(c1, CsumPartial(outHdr, 0));
    var c2 := CsumAdd(c1, CsumPartial(outHdr, 0));
    var k3 := PartialK(Pseudo6(a.src6, a.dst6, len, NEXTHDR_ICMP), c2);
    var k4 := CsumFoldK(CsumPartial(Pseudo6(a.src6, a.dst6, len, NEXTHDR_ICMP), c2));
    k := k4 - k3 - k2 - k1 + ki - ko - 0x1_0001;
  }

  /**
   ICMP echo, IPv6 to IPv4. The residue is always kept. The verdict is kept as
   well except for one family: if everything in the ICMPv4 message but its
   checksum is zero (an echo reply with identifier and sequence number zero and a
   zero payload), the field becomes 0 where only 0xFFFF would be accepted.
   */
  lemma Icmp64KeepsResidue(a: Addrs, hdr: seq<Word>, out: seq<Word>, c: nat, payload: seq<Word>, len: Word)
    requires c < |hdr| && c < |out|
    ensures var before := Pseudo6(a.src6, a.dst6, len, NEXTHDR_ICMP) + hdr + payload;
            var after := out[c := UpdateIcmp4Csum(hdr[c], a, len, hdr[c := 0], out[c := 0])] + payload;
            && Residue(after) == Residue(before)
            && (Verifies(after) <==> Verifies(before) && !(AllZero(out[c := 0]) && AllZero(payload)))
  {
    hide Sum, Verifies, UpdateIcmp4Csum, Pseudo6, AllZero;
    var p6 := Pseudo6(a.src6, a.dst6, len, NEXTHDR_ICMP);
    var check := UpdateIcmp4Csum(hdr[c], a, len, hdr[c := 0], out[c := 0]);
    var k := UpdateIcmp4CsumMeaning(hdr[c], a, len, hdr[c := 0], out[c := 0]);
    SumPseudo(a.src6, a.dst6, len, NEXTHDR_ICMP);
    SumHeader(hdr, c, 0);
    SumHeader(out, c, check);
    SumSegment(p6, hdr, payload);
    SumAppend(out[c := check], payload);
    SumZeros(out[c := 0]);
    SumZeros(payload);
    SameVerdict(p6 + hdr + payload, out[c := check] + payload, k);
    VerifiesIff(p6 + hdr + payload);
    VerifiesIff(out[c := check] + payload);
  }

  /**
   The exception of Icmp64KeepsResidue does occur: an intact echo reply from 2001:db8::8 to 203.0.113.5, identifier and
   sequence number zero, whose translation is rejected.
   */
  lemma Icmp64RejectedExample()
    ensures var a := Addrs(LOCAL6, REMOTE6, LOCAL4, REMOTE4);
            var hdr: seq<Word> := [0x8100, 0x14F6, 0, 0];
            var out: seq<Word> := [0, 0, 0, 0];
            && Verifies(Pseudo6(a.src6, a.dst6, 8, NEXTHDR_ICMP) + hdr + [])
            && !Verifies(out[1 := UpdateIcmp4Csum(hdr[1], a, 8, hdr[1 := 0], out[1 := 0])] + [])
  {
    hide UpdateIcmp4Csum, Pseudo6, CsumFold, CsumPartial, Sum, Verifies;
    var a := Addrs(LOCAL6, REMOTE6, LOCAL4, REMOTE4);
    var hdr: seq<Word> := [0x8100, 0x14F6, 0, 0];
    var out: seq<Word> := [0, 0, 0, 0];
    ExampleSums();
    SumZeros([]);
    SumFour(0x8100, 0x14F6, 0, 0);
    SumPseudo(a.src6, a.dst6, 8, NEXTHDR_ICMP);
    SumSegment(Pseudo6(a.src6, a.dst6, 8, NEXTHDR_ICMP), hdr, []);
    VerifiesIff(Pseudo6(a.src6, a.dst6, 8, NEXTHDR_ICMP) + hdr + []);
    Icmp64KeepsResidue(a, hdr, out, 1, [], 8);
  }

  /** ICMP echo, IPv4 to IPv6: an all-zero ICMPv4 message, which no receiver accepts, comes out intact. */
  lemma Icmp46KeepsResidue(a: Addrs, hdr: seq<Word>, out: seq<Word>, c: nat, payload: seq<Word>, len: Word)
    requires c < |hdr| && c < |out|
    ensures var before := hdr + payload;
            var after := Pseudo6(a.src6, a.dst6, len, NEXTHDR_ICMP)
                         + out[c := UpdateIcmp6Csum(hdr[c], a, len, hdr[c := 0], out[c := 0])] + payload;
            && Residue(after) == Residue(before)
            && (Verifies(after) <==> Verifies(before) || AllZero(before))
  {
    hide Sum, Verifies, UpdateIcmp6Csum, Pseudo6, AllZero;
    var p6 := Pseudo6(a.src6, a.dst6, len, NEXTHDR_ICMP);
    var check := UpdateIcmp6Csum(hdr[c], a, len, hdr[c := 0], out[c := 0]);
    var k := UpdateIcmp6CsumMeaning(hdr[c], a, len, hdr[c := 0], out[c := 0]);
    SumPseudo(a.src6, a.dst6, len, NEXTHDR_ICMP);
    SumHeader(hdr, c, 0);
    SumHeader(out, c, check);
    SumSegment(p6, out[c := check], payload);
    SumAppend(hdr, payload);
    SumZeros(hdr + payload);
    SameVerdict(hdr + payload, p6 + out[c := check] + payload, k);
    VerifiesIff(hdr + payload);
    VerifiesIff(p6 + out[c := check] + payload);
  }
}
