/** internal/clientip/clientip.go: the caller's address from behind reverse proxies. */
module ClientIp {
  import opened Strings
  import opened Wrappers

  /** What net, net/netip and strings supply: parsing, printing and matching of addresses. */
  datatype Net<!Addr, !Prefix> = Net(
    trim: string -> string,
    splitHostPort: string -> Option<string>,
    parseAddr: string -> Option<Addr>,
    parsePrefix: string -> Option<Prefix>,
    unmap: Addr -> Addr,
    contains: (Prefix, Addr) -> bool,
    show: Addr -> string
  )

  function HostOnly<A, P>(net: Net<A, P>, remoteAddr: string): string {
    var host := (net.splitHostPort)(remoteAddr);
    if host.Some? then host.value else remoteAddr
  }

  ghost predicate Trusted<A, P>(net: Net<A, P>, addr: A, trusted: seq<P>) {
    exists p :: p in trusted && (net.contains)(p, (net.unmap)(addr))
  }

  method IsTrusted<A, P>(net: Net<A, P>, addr: A, trusted: seq<P>) returns (r: bool)
    ensures r <==> Trusted(net, addr, trusted)
  {
    var plain := (net.unmap)(addr);
    for i := 0 to |trusted|
      invariant forall k | 0 <= k < i :: !(net.contains)(trusted[k], plain)
    {
      if (net.contains)(trusted[i], plain) {
        return true;
      }
    }
    return false;
  }

  // ---------------------------------------------------------------- Parse

  function PrefixesOf<A, P>(net: Net<A, P>, items: seq<string>): seq<P>
    decreases |items|
  {
    if items == [] then []
    else
      var n := |items| - 1;
      var item := (net.trim)(items[n]);
      var prefix := if item == "" then None else (net.parsePrefix)(item);
      PrefixesOf(net, items[..n]) + (if prefix.Some? then [prefix.value] else [])
  }

  method Parse<A, P>(net: Net<A, P>, list: string) returns (out: seq<P>)
    ensures out == PrefixesOf(net, Split(list, ','))
  {
    out := [];
    var items := Split(list, ',');
    for i := 0 to |items|
      invariant out == PrefixesOf(net, items[..i])
    {
      assert items[..i + 1][..i] == items[..i];
      var item := (net.trim)(items[i]);
      if item == "" {
        continue;
      }
      var prefix := (net.parsePrefix)(item);
      if prefix.None? {
        continue;
      }
      out := out + [prefix.value];
    }
    assert items[..|items|] == items;
  }

  lemma {:induction false} PrefixesConcat<A, P>(net: Net<A, P>, a: seq<string>, b: seq<string>)
    ensures PrefixesOf(net, a + b) == PrefixesOf(net, a) + PrefixesOf(net, b)
    decreases |b|
  {
    if b == [] {
      assert a + b == a;
    } else {
      var n := |b| - 1;
      assert (a + b)[..|a + b| - 1] == a + b[..n];
      PrefixesConcat(net, a, b[..n]);
    }
  }

  /** A malformed entry costs that entry alone: each side of a comma contributes what it would alone. */
  lemma ListsAreParsedEntryByEntry<A, P>(net: Net<A, P>, a: string, b: string)
    ensures PrefixesOf(net, Split(a + "," + b, ',')) == PrefixesOf(net, Split(a, ',')) + PrefixesOf(net, Split(b, ','))
  {
    SplitAtSeparator(a, b, ',');
    PrefixesConcat(net, Split(a, ','), Split(b, ','));
  }

  /** One entry: its prefix, if it has one once the space around it is gone. */
  lemma OneEntry<A, P>(net: Net<A, P>, item: string)
    requires ',' !in item
    ensures PrefixesOf(net, Split(item, ',')) ==
              var entry := (net.trim)(item);
              if entry != "" && (net.parsePrefix)(entry).Some? then [(net.parsePrefix)(entry).value] else []
  {
    SplitWithoutSeparator(item, ',');
    assert PrefixesOf(net, [item][..0]) == [];
  }

  // ---------------------------------------------------------------- Resolve

  /** All headers' hops in order. */
  function HopsOf(headers: seq<string>): seq<string>
    decreases |headers|
  {
    if headers == [] then [] else HopsOf(headers[..|headers| - 1]) + Split(headers[|headers| - 1], ',')
  }

  /** A hop that can be the caller: it parses, and it is not one of ours. */
  ghost predicate Foreign<A, P>(net: Net<A, P>, hop: string, trusted: seq<P>) {
    var addr := (net.parseAddr)((net.trim)(hop));
    addr.Some? && !Trusted(net, addr.value, trusted)
  }

  /** The index of the rightmost such hop. */
  ghost function Rightmost<A, P>(net: Net<A, P>, hops: seq<string>, trusted: seq<P>): (i: Option<nat>)
    ensures i.Some? ==> i.value < |hops| && Foreign(net, hops[i.value], trusted)
    ensures i.Some? ==> forall k | i.value < k < |hops| :: !Foreign(net, hops[k], trusted)
    ensures i.None? ==> forall k | 0 <= k < |hops| :: !Foreign(net, hops[k], trusted)
    decreases |hops|
  {
    if hops == [] then None
    else if Foreign(net, hops[|hops| - 1], trusted) then Some(|hops| - 1)
    else Rightmost(net, hops[..|hops| - 1], trusted)
  }

  ghost predicate TrustedPeer<A, P>(net: Net<A, P>, remoteAddr: string, trusted: seq<P>) {
    var addr := (net.parseAddr)(HostOnly(net, remoteAddr));
    addr.Some? && Trusted(net, addr.value, trusted)
  }

  /** The address of a request: the rightmost foreign hop's behind a trusted peer, otherwise the peer's own. */
  ghost function Caller<A, P>(net: Net<A, P>, remoteAddr: string, headers: seq<string>, trusted: seq<P>): string {
    var hops := HopsOf(headers);
    var i := Rightmost(net, hops, trusted);
    if TrustedPeer(net, remoteAddr, trusted) && i.Some?
    then (net.show)((net.parseAddr)((net.trim)(hops[i.value])).value)
    else HostOnly(net, remoteAddr)
  }

  /**
   Who is not a trusted proxy gets its own address, whatever the headers say: the host of remoteAddr, or the whole
   of it when there is no port to take off. So does a proxy whose chain holds no foreign hop.
   */
  lemma PeersSpeakForThemselves<A, P>(net: Net<A, P>, remoteAddr: string, headers: seq<string>, trusted: seq<P>)
    ensures var host := if (net.splitHostPort)(remoteAddr).Some? then (net.splitHostPort)(remoteAddr).value else remoteAddr;
            var peer := (net.parseAddr)(host);
            var proxy := peer.Some? && exists p :: p in trusted && (net.contains)(p, (net.unmap)(peer.value));
            !proxy || (forall hop | hop in HopsOf(headers) :: !Foreign(net, hop, trusted)) ==>
              Caller(net, remoteAddr, headers, trusted) == host
  {
  }

  method Resolve<A, P>(net: Net<A, P>, remoteAddr: string, headers: seq<string>, trusted: seq<P>) returns (r: string)
    ensures r == Caller(net, remoteAddr, headers, trusted)
  {
    var remote := HostOnly(net, remoteAddr);
    var addr := (net.parseAddr)(remote);
    if addr.None? {
      return remote;
    }
    var known := IsTrusted(net, addr.value, trusted);
    if !known {
      return remote;
    }
    var hops := CollectHops(headers);
    var caller := WalkBack(net, hops, trusted);
    return if caller.Some? then (net.show)(caller.value) else remote;
  }

  /** The loop from the right past trusted and unreadable hops. */
  method WalkBack<A, P>(net: Net<A, P>, hops: seq<string>, trusted: seq<P>) returns (r: Option<A>)
    ensures var i := Rightmost(net, hops, trusted);
            r == if i.Some? then (net.parseAddr)((net.trim)(hops[i.value])) else None
  {
    var i := |hops|;
    assert hops[..i] == hops;
    while i > 0
      invariant 0 <= i <= |hops|
      invariant Rightmost(net, hops, trusted) == Rightmost(net, hops[..i], trusted)
    {
      i := i - 1;
      assert hops[..i + 1][..i] == hops[..i];
      var hop := (net.parseAddr)((net.trim)(hops[i]));
      if hop.None? {
        continue;
      }
      var ours := IsTrusted(net, hop.value, trusted);
      if ours {
        continue;
      }
      return hop;
    }
    return None;
  }

  method CollectHops(headers: seq<string>) returns (hops: seq<string>)
    ensures hops == HopsOf(headers)
  {
    hops := [];
    for h := 0 to |headers|
      invariant hops == HopsOf(headers[..h])
    {
      assert headers[..h + 1][..h] == headers[..h];
      hops := hops + Split(headers[h], ',');
    }
    assert headers[..|headers|] == headers;
  }

  lemma {:induction false} HopsConcat(a: seq<string>, b: seq<string>)
    ensures HopsOf(a + b) == HopsOf(a) + HopsOf(b)
    decreases |b|
  {
    if b == [] {
      assert a + b == a;
    } else {
      var n := |b| - 1;
      HopsConcat(a, b[..n]);
      assert (a + b)[..|a + b| - 1] == a + b[..n] && (a + b)[|a + b| - 1] == b[n];
      Associates(HopsOf(a), HopsOf(b[..n]), Split(b[n], ','));
    }
  }

  lemma OneHeader(h: string)
    ensures HopsOf([h]) == Split(h, ',')
  {
  }

  lemma {:induction false} RightmostOfConcat<A, P>(net: Net<A, P>, more: seq<string>, hops: seq<string>, trusted: seq<P>)
    ensures var i := Rightmost(net, hops, trusted);
            Rightmost(net, more + hops, trusted) == if i.Some? then Some(|more| + i.value) else Rightmost(net, more, trusted)
    decreases |hops|
  {
    if hops == [] {
      assert more + hops == more;
    } else {
      var n := |hops| - 1;
      assert (more + hops)[..|more + hops| - 1] == more + hops[..n];
      RightmostOfConcat(net, more, hops[..n], trusted);
    }
  }

  lemma HopsAround(more: seq<string>, header: string, rest: seq<string>)
    ensures HopsOf(more + [header] + rest) == HopsOf(more) + Split(header, ',') + HopsOf(rest)
  {
    HopsConcat(more + [header], rest);
    HopsConcat(more, [header]);
    OneHeader(header);
  }

  lemma Regroup<T>(a: seq<T>, b: seq<T>, c: seq<T>, d: seq<T>)
    ensures a + (b + c) + d == a + b + (c + d)
  {
  }

  lemma HopsOfLonger(more: seq<string>, text: string, headers: seq<string>)
    requires headers != []
    ensures HopsOf(more + [text + "," + headers[0]] + headers[1..]) == HopsOf(more) + Split(text, ',') + HopsOf(headers)
  {
    HopsAround(more, text + "," + headers[0], headers[1..]);
    SplitAtSeparator(text, headers[0], ',');
    FirstHeader(headers);
    Regroup(HopsOf(more), Split(text, ','), Split(headers[0], ','), HopsOf(headers[1..]));
  }

  lemma FirstHeader(headers: seq<string>)
    requires headers != []
    ensures HopsOf(headers) == Split(headers[0], ',') + HopsOf(headers[1..])
  {
    HopsConcat([headers[0]], headers[1..]);
    OneHeader(headers[0]);
    assert [headers[0]] + headers[1..] == headers;
  }

  lemma ChosenStays<A, P>(net: Net<A, P>, before: seq<string>, hops: seq<string>, trusted: seq<P>)
    requires exists hop :: hop in hops && Foreign(net, hop, trusted)
    ensures var i, j := Rightmost(net, hops, trusted), Rightmost(net, before + hops, trusted);
            i.Some? && j.Some? && (before + hops)[j.value] == hops[i.value]
  {
    RightmostOfConcat(net, before, hops, trusted);
  }

  /**
   Whatever a client puts in front, as headers of its own or as text before the first one, the answer is the
   one without it, as soon as the rest of the chain holds a foreign hop.
   */
  lemma PrependingChangesNothing<A, P>(
    net: Net<A, P>, remoteAddr: string, more: seq<string>, text: string, headers: seq<string>, trusted: seq<P>)
    requires headers != [] && exists hop :: hop in HopsOf(headers) && Foreign(net, hop, trusted)
    ensures Caller(net, remoteAddr, more + [text + "," + headers[0]] + headers[1..], trusted)
         == Caller(net, remoteAddr, headers, trusted)
  {
    HopsOfLonger(more, text, headers);
    ChosenStays(net, HopsOf(more) + Split(text, ','), HopsOf(headers), trusted);
  }

  /** Trusting more proxies never moves the chosen hop to the right. */
  lemma TrustingMoreMovesLeft<A, P>(net: Net<A, P>, hops: seq<string>, trusted: seq<P>, wider: seq<P>)
    requires forall p | p in trusted :: p in wider
    ensures var i, j := Rightmost(net, hops, trusted), Rightmost(net, hops, wider);
            j.Some? ==> i.Some? && j.value <= i.value
  {
  }

  /** How a proxy appends the address it was called from. */
  function Printed<A, P>(net: Net<A, P>, seen: seq<A>): (hops: seq<string>)
    ensures |hops| == |seen| && forall i | 0 <= i < |seen| :: hops[i] == " " + (net.show)(seen[i])
  {
    if seen == [] then [] else Printed(net, seen[..|seen| - 1]) + [" " + (net.show)(seen[|seen| - 1])]
  }

  /** A header as it arrives: the client's own text, then what every proxy appended. */
  function Forwarded<A, P>(net: Net<A, P>, text: string, seen: seq<A>): string {
    if seen == [] then text
    else Forwarded(net, text, seen[..|seen| - 1]) + "," + (" " + (net.show)(seen[|seen| - 1]))
  }

  /** These addresses are printed without a comma and parse back; real peers' are, the zero address is not. */
  ghost predicate PrintsFaithfully<A, P>(net: Net<A, P>, seen: seq<A>) {
    forall a | a in seen :: (net.parseAddr)((net.trim)(" " + (net.show)(a))) == Some(a) && ',' !in (net.show)(a)
  }

  lemma {:induction false} ForwardedHops<A, P>(net: Net<A, P>, text: string, seen: seq<A>)
    requires PrintsFaithfully(net, seen)
    ensures Split(Forwarded(net, text, seen), ',') == Split(text, ',') + Printed(net, seen)
    decreases |seen|
  {
    if seen != [] {
      var last := " " + (net.show)(seen[|seen| - 1]);
      ForwardedHops(net, text, seen[..|seen| - 1]);
      SplitAtSeparator(Forwarded(net, text, seen[..|seen| - 1]), last, ',');
      SplitWithoutSeparator(last, ',');
    }
  }

  lemma FirstPrintedIsChosen<A, P>(net: Net<A, P>, client: A, proxies: seq<A>, trusted: seq<P>)
    requires PrintsFaithfully(net, [client] + proxies)
    requires !Trusted(net, client, trusted) && forall p | p in proxies :: Trusted(net, p, trusted)
    ensures Rightmost(net, Printed(net, [client] + proxies), trusted) == Some(0)
  {
    var seen := [client] + proxies;
    var hops := Printed(net, seen);
    assert Foreign(net, hops[0], trusted);
    forall i | 0 < i < |hops| ensures !Foreign(net, hops[i], trusted) {
      assert hops[i] == " " + (net.show)(seen[i]) && seen[i] in proxies;
    }
  }

  /**
   A client cannot choose its address. When the proxies in front of the server are trusted and each appends
   the address it was called from, the first of them the untrusted client, the answer is the client's address,
   whatever the client itself wrote in the header.
   */
  lemma TheClientCannotChoose<A, P>(
    net: Net<A, P>, remoteAddr: string, text: string, client: A, proxies: seq<A>, trusted: seq<P>)
    requires PrintsFaithfully(net, [client] + proxies) && TrustedPeer(net, remoteAddr, trusted)
    requires !Trusted(net, client, trusted) && forall p | p in proxies :: Trusted(net, p, trusted)
    ensures Caller(net, remoteAddr, [Forwarded(net, text, [client] + proxies)], trusted) == (net.show)(client)
  {
    var seen := [client] + proxies;
    var before, appended := Split(text, ','), Printed(net, seen);
    ForwardedHops(net, text, seen);
    OneHeader(Forwarded(net, text, seen));
    RightmostOfConcat(net, before, appended, trusted);
    FirstPrintedIsChosen(net, client, proxies, trusted);
    assert (before + appended)[|before|] == appended[0] == " " + (net.show)(client);
  }
}
