/** The DHCP messages byte by byte, with the numbers of RFC 2132 written out. */
module DhcpBytes {
  import opened GoStrings
  import opened Dhcp

  lemma CookieDecides(b: Bytes)
    requires |b| >= 240
    ensures U32At(b, 236) == MAGIC <==> b[236] == 99 && b[237] == 130 && b[238] == 83 && b[239] == 99
  {
  }

  // ----- a reply

  /** The options of an offer or an acknowledgement: 53 its kind, 1 the mask, 3 the router, 6 two name servers, 54 the
      server. */
  function ReplyTail(kind: byte, mask: Bytes, router: Bytes, dns: Bytes, server: Bytes): Bytes {
    [53, 1, kind] + ([1, 4] + mask + ([3, 4] + router + ([6, 8] + dns + ([54, 4] + server + [255]))))
  }

  function ReplyList(kind: byte, mask: Bytes, router: Bytes, dns: Bytes, server: Bytes): seq<Opt> {
    [Opt(53, [kind]), Opt(1, mask), Opt(3, router), Opt(6, dns), Opt(54, server)]
  }

  lemma TailIsList(kind: byte, mask: Bytes, router: Bytes, dns: Bytes, server: Bytes, rest: Bytes)
    requires |mask| == 4 && |router| == 4 && |dns| == 8 && |server| == 4
    ensures OptionsIn(ReplyTail(kind, mask, router, dns, server) + rest)
            == ReplyList(kind, mask, router, dns, server)
  {
    hide OptionsIn;
    var e: Bytes := [255] + rest;
    var d := [54, 4] + server + e;
    var c := [6, 8] + dns + d;
    var b := [3, 4] + router + c;
    var a := [1, 4] + mask + b;
    OptionStep(Opt(53, [kind]), a);
    OptionStep(Opt(1, mask), b);
    OptionStep(Opt(3, router), c);
    OptionStep(Opt(6, dns), d);
    OptionStep(Opt(54, server), e);
    OptionsStep(e);
    TailAgain(kind, mask, router, dns, server, rest);
  }

  lemma TailAgain(kind: byte, mask: Bytes, router: Bytes, dns: Bytes, server: Bytes, rest: Bytes)
    ensures ReplyTail(kind, mask, router, dns, server) + rest
            == [53, 1] + [kind]
               + ([1, 4] + mask + ([3, 4] + router + ([6, 8] + dns + ([54, 4] + server + ([255] + rest)))))
  {
  }

  lemma ListTaken(address: Bytes, kind: byte, mask: Bytes, router: Bytes, dns: Bytes, server: Bytes)
    requires |mask| == 4 && |router| == 4 && |dns| == 8 && |server| == 4
    ensures TakeAll(Empty(address), ReplyList(kind, mask, router, dns, server))
            == Progress(kind, Reply(address, Some(mask), Some(router), [dns[..4], dns[4..]], Some(server)))
  {
    hide TakeAll, Take, Addresses;
    var e: seq<Opt> := [];
    var d := [Opt(54, server)] + e;
    var c := [Opt(6, dns)] + d;
    var b := [Opt(3, router)] + c;
    var a := [Opt(1, mask)] + b;
    var p := Empty(address);
    var q := Progress(kind, p.reply);
    var r := q.(reply := q.reply.(mask := Some(mask)));
    var s := r.(reply := r.reply.(router := Some(router)));
    var t := s.(reply := s.reply.(dns := [dns[..4], dns[4..]]));
    TakeFirst(p, Opt(53, [kind]), a);
    TakeFirst(q, Opt(1, mask), b);
    TakeFirst(r, Opt(3, router), c);
    TakeFirst(s, Opt(6, dns), d);
    TakeFirst(t, Opt(54, server), e);
    KindTaken(p, kind);
    MaskTaken(q, mask);
    RouterTaken(r, router);
    ServersTaken(s, dns);
    ServerTaken(t, server);
    TakeFirst(t.(reply := t.reply.(serverId := Some(server))), Opt(0, []), []);
    assert ReplyList(kind, mask, router, dns, server) == [Opt(53, [kind])] + a;
  }

  lemma KindTaken(p: Progress, kind: byte)
    requires p.Progress?
    ensures Take(p, Opt(53, [kind])) == p.(kind := kind)
  {
  }

  lemma MaskTaken(p: Progress, mask: Bytes)
    requires p.Progress? && |mask| == 4
    ensures Take(p, Opt(1, mask)) == p.(reply := p.reply.(mask := Some(mask)))
  {
  }

  lemma RouterTaken(p: Progress, router: Bytes)
    requires p.Progress? && |router| == 4
    ensures Take(p, Opt(3, router)) == p.(reply := p.reply.(router := Some(router)))
  {
    assert router[..4] == router;
  }

  lemma ServersTaken(p: Progress, dns: Bytes)
    requires p.Progress? && |dns| == 8 && p.reply.dns == []
    ensures Take(p, Opt(6, dns)) == p.(reply := p.reply.(dns := [dns[..4], dns[4..]]))
  {
    assert Addresses(dns[4..]) == [dns[4..][..4]] + Addresses(dns[4..][4..]);
    assert dns[4..][..4] == dns[4..];
    assert Addresses(dns[4..][4..]) == [];
    assert Addresses(dns) == [dns[..4], dns[4..]];
  }

  lemma ServerTaken(p: Progress, server: Bytes)
    requires p.Progress? && |server| == 4
    ensures Take(p, Opt(54, server)) == p.(reply := p.reply.(serverId := Some(server)))
  {
  }

  /** A reply laid out like this is accepted, and everything in it arrives in its own place. */
  lemma ReplyIsRead(header: Bytes, xid: u32, kind: byte, mask: Bytes, router: Bytes, dns: Bytes, server: Bytes,
                    rest: Bytes)
    requires |header| == 240 && header[0] == 2 && header[4..8] == U32Bytes(xid)
    requires header[236] == 99 && header[237] == 130 && header[238] == 83 && header[239] == 99
    requires |mask| == 4 && |router| == 4 && |dns| == 8 && |server| == 4
    ensures Parsed(header + ReplyTail(kind, mask, router, dns, server) + rest, xid, kind)
            == Accepted(Reply(header[16..20], Some(mask), Some(router), [dns[..4], dns[4..]], Some(server)))
  {
    hide OptionsIn, TakeAll, ReplyTail, U32Bytes;
    var tail := ReplyTail(kind, mask, router, dns, server);
    var b := header + tail + rest;
    U32ReadsBack(header, 4, xid);
    CookieDecides(header);
    TailIsList(kind, mask, router, dns, server, rest);
    ListTaken(header[16..20], kind, mask, router, dns, server);
    assert b[240..] == tail + rest && b[16..20] == header[16..20];
    assert U32At(b, 4) == U32At(header, 4) && U32At(b, 236) == U32At(header, 236);
  }

  // ----- a request

  /** The options of a request: 53 its kind, 50 the address asked for, 54 the server chosen, and 55 for mask, router and
      name servers. */
  lemma RequestIsSaid(kind: byte, requested: Option<Bytes>, serverId: Option<Bytes>)
    requires (requested.Some? ==> |requested.value| == 4) && (serverId.Some? ==> |serverId.value| == 4)
    ensures var asked := if requested.Some? then [50, 4] + requested.value else [];
            var chosen := if serverId.Some? then [54, 4] + serverId.value else [];
            RequestBytes(kind, requested, serverId) == [53, 1, kind] + asked + chosen + [55, 3, 1, 3, 6, 255]
  {
  }

  lemma RequestCookie(b: Bytes, hw: Bytes, xid: u32)
    requires RequestHeader(b, hw, xid)
    ensures b[236..240] == [99, 130, 83, 99]
  {
    CookieDecides(b);
  }
}
