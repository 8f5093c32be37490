/** Client addresses behind trusted proxies, and address rules (internal/netutil). */
module ClientIp {
  import opened Wrappers
  import opened Text
  import opened Arith

  // ---------------------------------------------------------------- addresses and prefixes

  datatype RawAddr = NoAddr | V4(v: nat) | V6(v: nat, zone: string)

  function Width(a: RawAddr): nat { if a.V4? then 32 else 128 }

  /** `netip.Addr`, or none. */
  type Addr = a: RawAddr | a != NoAddr ==> a.v < Pow2(Width(a)) witness NoAddr

  datatype RawPrefix = RawPrefix(addr: Addr, bits: nat)

  predicate ValidPrefix(p: RawPrefix) {
    p.addr != NoAddr && p.bits <= Width(p.addr) && (p.addr.V6? ==> p.addr.zone == "")
  }

  /** `netip.Prefix`: its address carries no zone. */
  type Prefix = p: RawPrefix | ValidPrefix(p) witness RawPrefix(V4(0), 0)

  /** The weight of one network: addresses agree on a prefix when they agree above it. */
  function Block(p: Prefix): (w: nat)
    ensures w >= 1
  {
    Pow2(Width(p.addr) - p.bits)
  }

  /** An IPv4 address written in IPv6 form becomes the IPv4 address; everything else is unchanged. */
  function Unmap(a: Addr): Addr {
    Pow2Values();
    if a.V6? && a.v / 0x1_0000_0000 == 0xFFFF then V4(a.v % 0x1_0000_0000) else a
  }

  /** `Prefix.Contains`: same family, no zone, same network part. */
  predicate Contains(p: Prefix, a: Addr) {
    && a != NoAddr
    && a.V4? == p.addr.V4?
    && (a.V6? ==> a.zone == "")
    && a.v / Block(p) == p.addr.v / Block(p)
  }

  /** `Prefix.Masked`: host bits cleared. */
  function Masked(p: Prefix): Prefix {
    RoundedDown(p.addr.v, Block(p));
    p.(addr := p.addr.(v := p.addr.v / Block(p) * Block(p)))
  }

  /** The mapped addresses are 0xFFFF above the low 32 bits, which are the IPv4 address. */
  lemma UnmapIs(a: Addr)
    ensures Unmap(a) == if a.V6? && 0xFFFF_0000_0000 <= a.v < 0x1_0000_0000_0000 then V4(a.v - 0xFFFF_0000_0000) else a
  {
  }

  /** Bit number `i` of an address, the lowest being number 0. */
  function Bit(v: nat, i: nat): nat { v / Pow2(i) % 2 }

  /** Numbers below 2^w agree above bit `k` exactly when those bits do. */
  lemma {:induction false} HighBits(x: nat, y: nat, k: nat, w: nat)
    requires k <= w && x < Pow2(w) && y < Pow2(w)
    ensures x / Pow2(k) == y / Pow2(k) <==> forall i :: k <= i < w ==> Bit(x, i) == Bit(y, i)
    decreases w - k
  {
    if k < w {
      HighBits(x, y, k + 1, w);
      LowestBit(x, k);
      LowestBit(y, k);
    } else {
      NothingAbove(x, Pow2(w));
      NothingAbove(y, Pow2(w));
    }
  }

  lemma NothingAbove(x: nat, m: nat)
    requires x < m
    ensures x / m == 0
  {
  }

  lemma LowestBit(x: nat, k: nat)
    ensures x / Pow2(k) == 2 * (x / Pow2(k + 1)) + Bit(x, k) && Bit(x, k) < 2
  {
    DivTwice(x, Pow2(k), 2);
    assert Pow2(k + 1) == Pow2(k) * 2;
  }

  /** A rule contains the addresses of its family whose leading bits are those of its own address, and no others. */
  lemma ContainsIsPrefixMatch(p: Prefix, a: Addr)
    ensures Contains(p, a) <==>
              && a != NoAddr && a.V4? == p.addr.V4? && (a.V6? ==> a.zone == "")
              && var width := if a.V4? then 32 else 128;
                 forall i :: width - p.bits <= i < width ==> Bit(a.v, i) == Bit(p.addr.v, i)
  {
    if a != NoAddr && a.V4? == p.addr.V4? {
      HighBits(a.v, p.addr.v, Width(a) - p.bits, Width(a));
    }
  }


  ghost predicate InSome(a: Addr, ps: seq<Prefix>) {
    exists i :: 0 <= i < |ps| && Contains(ps[i], Unmap(a))
  }

  method InAny(a: Addr, prefixes: seq<Prefix>) returns (found: bool)
    ensures found <==> InSome(a, prefixes)
    ensures found <==> exists i :: 0 <= i < |prefixes| && Contains(prefixes[i], Unmap(a))
  {
    var addr := Unmap(a);
    for i := 0 to |prefixes|
      invariant forall j :: 0 <= j < i ==> !Contains(prefixes[j], addr)
    {
      if Contains(prefixes[i], addr) {
        return true;
      }
    }
    return false;
  }

  /** An empty rule list admits everyone; callers gate on the feature flag instead. */
  method Allowed(a: Addr, prefixes: seq<Prefix>) returns (ok: bool)
    ensures ok <==> prefixes == [] || InSome(a, prefixes)
  {
    if |prefixes| == 0 {
      return true;
    }
    ok := InAny(a, prefixes);
  }

  // ---------------------------------------------------------------- the proxy walk

  /** `netip.ParseAddr`, with `NoAddr` for an error. */
  type Parser = string -> Addr

  /** The empty text is not an address. */
  ghost predicate ParserLaw(parse: Parser) { parse("") == NoAddr }

  function ParseHop(parse: Parser, entry: string): Addr { Unmap(parse(TrimSpace(entry))) }

  /** The hop the walk stops at, reading the list from its right end. */
  ghost function Walk(parse: Parser, trusted: seq<Prefix>, hops: seq<string>, peer: Addr): Addr {
    if hops == [] then peer
    else
      var hop := ParseHop(parse, hops[|hops| - 1]);
      if hop == NoAddr then peer
      else if !InSome(hop, trusted) then hop
      else Walk(parse, trusted, hops[..|hops| - 1], peer)
  }

  ghost predicate HeaderHonoured(peer: Addr, trusted: seq<Prefix>, forwarded: string) {
    trusted != [] && peer != NoAddr && InSome(peer, trusted) && forwarded != ""
  }

  ghost function Resolved(parse: Parser, host: string, trusted: seq<Prefix>, forwarded: string): Addr {
    var peer := Unmap(parse(host));
    if HeaderHonoured(peer, trusted, forwarded) then Walk(parse, trusted, Split(forwarded, ','), peer) else peer
  }

  method ClientIP(parse: Parser, host: string, trusted: seq<Prefix>, forwarded: string) returns (r: Addr)
    ensures r == Resolved(parse, host, trusted, forwarded)
    ensures var peer := Unmap(parse(host));
            r == if trusted == [] || peer == NoAddr || !InSome(peer, trusted) || forwarded == "" then peer
                 else Walk(parse, trusted, Split(forwarded, ','), peer)
  {
    var peer := Unmap(parse(host));
    var peerTrusted := InAny(peer, trusted);
    if |trusted| == 0 || peer == NoAddr || !peerTrusted {
      return peer;
    }
    if forwarded == "" {
      return peer;
    }
    var hops := Split(forwarded, ',');
    var i := |hops| - 1;
    assert hops[..i + 1] == hops;
    while i >= 0
      invariant -1 <= i < |hops|
      invariant Walk(parse, trusted, hops, peer) == Walk(parse, trusted, hops[..i + 1], peer)
    {
      assert hops[..i + 1][..i] == hops[..i];
      var hop := Unmap(parse(TrimSpace(hops[i])));
      if hop == NoAddr {
        return peer;
      }
      var isTrusted := InAny(hop, trusted);
      if !isTrusted {
        return hop;
      }
      i := i - 1;
    }
    return peer;
  }

  /** An entry the walk cannot pass. */
  ghost predicate Stops(parse: Parser, trusted: seq<Prefix>, entry: string) {
    ParseHop(parse, entry) == NoAddr || !InSome(ParseHop(parse, entry), trusted)
  }

  ghost predicate SomeStops(parse: Parser, trusted: seq<Prefix>, hops: seq<string>) {
    exists i :: 0 <= i < |hops| && Stops(parse, trusted, hops[i])
  }

  lemma {:induction false} WalkIgnoresLeft(parse: Parser, trusted: seq<Prefix>, left: seq<string>, hops: seq<string>,
                                           peer: Addr)
    ensures Walk(parse, trusted, left + hops, peer)
         == if SomeStops(parse, trusted, hops) then Walk(parse, trusted, hops, peer) else Walk(parse, trusted, left, peer)
  {
    if hops == [] {
      assert left + hops == left;
    } else {
      var n := |hops| - 1;
      assert (left + hops)[|left + hops| - 1] == hops[n];
      assert (left + hops)[..|left + hops| - 1] == left + hops[..n];
      SomeStopsLast(parse, trusted, hops);
      if !Stops(parse, trusted, hops[n]) {
        WalkIgnoresLeft(parse, trusted, left, hops[..n], peer);
      }
    }
  }

  lemma SomeStopsLast(parse: Parser, trusted: seq<Prefix>, hops: seq<string>)
    requires hops != []
    ensures SomeStops(parse, trusted, hops) <==>
              Stops(parse, trusted, hops[|hops| - 1]) || SomeStops(parse, trusted, hops[..|hops| - 1])
  {
    var shorter := hops[..|hops| - 1];
    if i :| 0 <= i < |shorter| && Stops(parse, trusted, shorter[i]) {
      assert Stops(parse, trusted, hops[i]);
    }
    if i :| 0 <= i < |hops| && Stops(parse, trusted, hops[i]) {
      assert i < |shorter| ==> Stops(parse, trusted, shorter[i]);
    }
  }

  lemma PrependedHops(parse: Parser, forwarded: string, extra: string)
    requires ParserLaw(parse)
    ensures Split(extra + "," + forwarded, ',') == Split(extra, ',') + Split(forwarded, ',')
    ensures ',' !in extra ==> Split(extra, ',') == [extra]
    ensures forwarded == "" ==> Split(forwarded, ',') == [""] && ParseHop(parse, "") == NoAddr
  {
    SplitConcat(extra, forwarded, ',');
    assert extra + "," + forwarded == extra + [','] + forwarded;
    if ',' !in extra {
      SplitWhole(extra, ',');
    }
    assert TrimSpace("") == "";
  }

  /**
   * Non-interference: once the header holds an entry the walk cannot pass, nothing written to its left
   * changes the resolved address. When every entry is a trusted proxy, one untrusted address written in
   * front of them is what the walk resolves to instead of the peer.
   */
  lemma LeftEntriesDoNotMatter(parse: Parser, host: string, trusted: seq<Prefix>, forwarded: string, extra: string)
    requires ParserLaw(parse)
    ensures SomeStops(parse, trusted, Split(forwarded, ',')) ==>
              Resolved(parse, host, trusted, extra + "," + forwarded) == Resolved(parse, host, trusted, forwarded)
    ensures var peer := Unmap(parse(host));
            && !SomeStops(parse, trusted, Split(forwarded, ',')) && HeaderHonoured(peer, trusted, forwarded)
            && ',' !in extra && ParseHop(parse, extra) != NoAddr && !InSome(ParseHop(parse, extra), trusted) ==>
              && Resolved(parse, host, trusted, extra + "," + forwarded) == ParseHop(parse, extra)
              && Resolved(parse, host, trusted, forwarded) == peer
              && ParseHop(parse, extra) != peer
  {
    var peer := Unmap(parse(host));
    var hops := Split(forwarded, ',');
    PrependedHops(parse, forwarded, extra);
    WalkIgnoresLeft(parse, trusted, Split(extra, ','), hops, peer);
    WalkIgnoresLeft(parse, trusted, [], hops, peer);
    assert [] + hops == hops;
    if forwarded == "" && SomeStops(parse, trusted, hops) {
      assert Walk(parse, trusted, hops, peer) == peer;
    }
    if ',' !in extra {
      assert [extra][..0] == [];
    }
  }

  /** An entry at which the walk stops although it is an address: nobody vouches for it, everyone right of it is trusted. */
  ghost predicate EarliestVouchedHop(parse: Parser, trusted: seq<Prefix>, hops: seq<string>, i: nat, r: Addr)
    requires i < |hops|
  {
    && r == ParseHop(parse, hops[i]) && r != NoAddr && !InSome(r, trusted)
    && forall j :: i < j < |hops| ==> !Stops(parse, trusted, hops[j])
  }

  /** The result is the peer, or a valid untrusted entry whose right neighbours are all trusted. */
  lemma {:induction false} ResultIsVouchedFor(parse: Parser, trusted: seq<Prefix>, hops: seq<string>, peer: Addr)
    ensures var r := Walk(parse, trusted, hops, peer);
            r == peer || exists i: nat :: i < |hops| && EarliestVouchedHop(parse, trusted, hops, i, r)
  {
    if hops != [] {
      var n := |hops| - 1;
      var r := Walk(parse, trusted, hops, peer);
      if Stops(parse, trusted, hops[n]) {
        assert r == peer || EarliestVouchedHop(parse, trusted, hops, n, r);
      } else {
        ResultIsVouchedFor(parse, trusted, hops[..n], peer);
        if r != peer {
          var i: nat :| i < n && EarliestVouchedHop(parse, trusted, hops[..n], i, r);
          forall j | i < j < |hops| ensures !Stops(parse, trusted, hops[j]) {
            assert j < n ==> hops[..n][j] == hops[j];
          }
          assert EarliestVouchedHop(parse, trusted, hops, i, r);
        }
      }
    }
  }

  /** Exactly where the walk ends: at the rightmost entry that stops it, which decides, or past them all, at the peer. */
  lemma {:induction false} WalkIs(parse: Parser, trusted: seq<Prefix>, hops: seq<string>, peer: Addr, i: nat)
    requires i <= |hops|
    requires forall j :: i <= j < |hops| ==> !Stops(parse, trusted, hops[j])
    ensures i == 0 ==> Walk(parse, trusted, hops, peer) == peer
    ensures i > 0 && Stops(parse, trusted, hops[i - 1]) ==>
              var hop := Unmap(parse(TrimSpace(hops[i - 1])));
              && (hop == NoAddr || !InSome(hop, trusted))
              && Walk(parse, trusted, hops, peer) == if hop == NoAddr then peer else hop
  {
    if i < |hops| {
      WalkIs(parse, trusted, hops[..|hops| - 1], peer, i);
    }
  }

  // ---------------------------------------------------------------- address rules

  /** `netip.ParsePrefix`. */
  type PrefixParser = string -> Option<Prefix>

  function SingleHost(a: Addr): Prefix
    requires a != NoAddr
  {
    RawPrefix(if a.V6? then V6(a.v, "") else a, Width(a))
  }

  /** One rule: a bare address is a single-host rule, a block is stored with its host bits cleared. */
  function ParseCIDR(parse: Parser, parsePrefix: PrefixParser, entry: string): Option<Prefix> {
    var text := TrimSpace(entry);
    if '/' !in text then
      var addr := Unmap(parse(text));
      if addr == NoAddr then None else Some(SingleHost(addr))
    else
      match parsePrefix(text)
      case None => None
      case Some(p) => Some(Masked(p))
  }

  lemma MaskedNetwork(p: Prefix)
    ensures Block(Masked(p)) == Block(p)
    ensures Masked(p).addr.v / Block(p) == p.addr.v / Block(p)
  {
    RoundedDown(p.addr.v, Block(p));
  }

  /** Clearing the host bits of a rule never changes which addresses it matches. */
  lemma MaskedMatchesTheSame(p: Prefix, a: Addr)
    ensures Masked(Masked(p)) == Masked(p)
    ensures Contains(Masked(p), a) <==> Contains(p, a)
  {
    MaskedNetwork(p);
  }

  /** A bare address admits that address alone, in whichever form it arrives. */
  lemma SingleHostMatchesItself(a: Addr, b: Addr)
    requires a != NoAddr && Unmap(a) == a
    ensures Contains(SingleHost(a), Unmap(b)) <==> Unmap(b) == (if a.V6? then V6(a.v, "") else a)
  {
    assert Block(SingleHost(a)) == Pow2(0) == 1;
  }

  /**
   * A block written inside the IPv4-mapped range of IPv6 keeps its IPv6 family, while every address is
   * unmapped before it is compared: such a rule matches no address at all.
   */
  lemma MappedBlockMatchesNothing(p: Prefix, a: Addr)
    requires p.addr.V6? && p.addr.v / 0x1_0000_0000 == 0xFFFF && p.bits >= 96
    ensures !Contains(p, Unmap(a)) && !Contains(Masked(p), Unmap(a))
  {
    if Contains(p, Unmap(a)) {
      var b := Unmap(a);
      var k := 128 - p.bits;
      Pow2Values();
      Pow2Sum(k, 32 - k);
      DivTwice(b.v, Pow2(k), Pow2(32 - k));
      DivTwice(p.addr.v, Pow2(k), Pow2(32 - k));
    }
    MaskedMatchesTheSame(p, Unmap(a));
  }

  /** A rule inside the IPv4-mapped block of IPv6. */
  predicate InsideMappedBlock(p: Prefix) { p.addr.V6? && p.addr.v / 0x1_0000_0000 == 0xFFFF && p.bits >= 96 }

  /** The network address of a block wider than the mapped one is not itself mapped. */
  lemma WideNetworkIsUnmapped(q: nat, k: nat)
    requires k >= 33
    ensures q * Pow2(k) / 0x1_0000_0000 != 0xFFFF
  {
    Pow2Values();
    assert Pow2(33) == 2 * Pow2(32);
    Pow2Sum(33, k - 33);
    Distribute(q, 0x2_0000_0000, Pow2(k - 33), 0);
    var t := q * Pow2(k - 33);
    assert q * Pow2(k) == 0x2_0000_0000 * t;
    assert 0x2_0000_0000 * t / 0x1_0000_0000 == 2 * t;
  }

  /** A rule matches some address a client can have, if and only if it does not lie inside the mapped block. */
  lemma MatchesSomeoneIff(p: Prefix)
    ensures (exists a: Addr :: Contains(p, Unmap(a))) <==> !InsideMappedBlock(p)
  {
    if InsideMappedBlock(p) {
      forall a ensures !Contains(p, Unmap(a)) {
        MappedBlockMatchesNothing(p, a);
      }
    } else if p.addr.V4? || p.addr.v / 0x1_0000_0000 != 0xFFFF {
      assert Contains(p, Unmap(p.addr));
    } else {
      var network := Masked(p).addr;
      MaskedNetwork(p);
      WideNetworkIsUnmapped(p.addr.v / Block(p), 128 - p.bits);
      assert Contains(p, Unmap(network));
    }
  }

  /**
   * What one entry of a rule list becomes: a bare address admits itself, and a block what the block as written contains,
   * of which the stored address is the lowest.
   */
  lemma StoredRule(parse: Parser, parsePrefix: PrefixParser, entry: string, a: Addr)
    ensures var text, rule := TrimSpace(entry), ParseCIDR(parse, parsePrefix, entry);
            && (rule.None? <==> if '/' in text then parsePrefix(text).None? else parse(text) == NoAddr)
            && (rule.Some? ==>
                  && (if '/' in text then
                        && rule.value.bits == parsePrefix(text).value.bits
                        && (Contains(rule.value, a) ==> rule.value.addr.v <= a.v)
                        && (Contains(rule.value, a) <==> Contains(parsePrefix(text).value, a))
                      else
                        var host := Unmap(parse(text));
                        Contains(rule.value, Unmap(a)) <==> Unmap(a) == if host.V6? then V6(host.v, "") else host))
  {
    var text := TrimSpace(entry);
    if '/' in text {
      if parsePrefix(text).Some? {
        MaskedMatchesTheSame(parsePrefix(text).value, a);
        if Contains(parsePrefix(text).value, a) {
          RoundedDown(a.v, Block(parsePrefix(text).value));
        }
      }
    } else if parse(text) != NoAddr {
      Pow2Values();
      SingleHostMatchesItself(Unmap(parse(text)), a);
    }
  }

  /** The entries that are not blank, trimmed, in order. */
  function NonBlank(entries: seq<string>): seq<string> {
    if entries == [] then []
    else
      var n := |entries| - 1;
      NonBlank(entries[..n]) + if TrimSpace(entries[n]) == "" then [] else [TrimSpace(entries[n])]
  }

  /** A list gives what its parts give, in order, and one entry gives its trimmed text unless that is empty. */
  lemma {:induction false} NonBlankParts(a: seq<string>, b: seq<string>, entry: string)
    ensures NonBlank(a + b) == NonBlank(a) + NonBlank(b)
    ensures NonBlank([entry]) == if TrimSpace(entry) == "" then [] else [TrimSpace(entry)]
  {
    assert [entry][..0] == [];
    if b == [] {
      assert a + b == a;
    } else {
      var n := |b| - 1;
      assert (a + b)[..|a + b| - 1] == a + b[..n];
      NonBlankParts(a, b[..n], entry);
    }
  }

  lemma {:induction false} NonBlankKeeps(entries: seq<string>, n: nat)
    requires n <= |entries|
    ensures NonBlank(entries[..n]) <= NonBlank(entries)
    decreases |entries|
  {
    if n == |entries| {
      assert entries[..n] == entries;
    } else {
      NonBlankKeeps(entries[..|entries| - 1], n);
      assert entries[..|entries| - 1][..n] == entries[..n];
    }
  }

  /** One rule per non-blank entry, in order; one bad entry fails the whole list. */
  method ParseCIDRList(parse: Parser, parsePrefix: PrefixParser, entries: seq<string>) returns (r: Option<seq<Prefix>>)
    ensures var texts := NonBlank(entries);
            && (r.None? <==> exists i :: 0 <= i < |texts| && ParseCIDR(parse, parsePrefix, texts[i]).None?)
            && (r.Some? ==> |r.value| == |texts|
                            && forall i :: 0 <= i < |texts| ==> ParseCIDR(parse, parsePrefix, texts[i]) == Some(r.value[i]))
  {
    var prefixes: seq<Prefix> := [];
    for n := 0 to |entries|
      invariant var texts := NonBlank(entries[..n]);
                && |prefixes| == |texts|
                && forall i :: 0 <= i < |texts| ==> ParseCIDR(parse, parsePrefix, texts[i]) == Some(prefixes[i])
    {
      assert entries[..n + 1][..n] == entries[..n];
      var entry := TrimSpace(entries[n]);
      if entry != "" {
        var prefix := ParseCIDR(parse, parsePrefix, entry);
        if prefix.None? {
          var i := |NonBlank(entries[..n])|;
          assert entries[..n + 1][..n] == entries[..n];
          assert NonBlank(entries[..n + 1])[i] == TrimSpace(entries[n]);
          NonBlankKeeps(entries, n + 1);
          return None;
        }
        prefixes := prefixes + [prefix.value];
      }
    }
    assert entries[..|entries|] == entries;
    return Some(prefixes);
  }
}
