/** The DHCP messages of the boot menu (cmd/vibeldr-boot/net_linux.go): section 2 of RFC 2131 and sections 2, 3 and 9 of
    RFC 2132. */
module Dhcp {
  import opened GoStrings

  const MAGIC: u32 := 0x6382_5363
  const SUBNET_MASK: byte := 1
  const ROUTER: byte := 3
  const DNS: byte := 6
  const REQUESTED_IP: byte := 50
  const MESSAGE_TYPE: byte := 53
  const SERVER_ID: byte := 54
  const PARAM_REQUEST: byte := 55
  const END: byte := 255

  // ----- the options field

  datatype Opt = Opt(code: byte, value: Bytes)

  /** The options of a field: up to the End option, or up to one that is cut off. */
  function OptionsIn(b: Bytes): seq<Opt>
    decreases |b|
  {
    if b == [] || b[0] == END then []
    else if b[0] == 0 then OptionsIn(b[1..])
    else if |b| < 2 || 2 + b[1] as int > |b| then []
    else [Opt(b[0], b[2..2 + b[1] as int])] + OptionsIn(b[2 + b[1] as int..])
  }

  /** An option as RFC 2132 lays it out, or one pad byte. */
  datatype Item = Pad | Value(opt: Opt)

  predicate ItemOk(item: Item) { item.Value? ==> item.opt.code != 0 && item.opt.code != END && |item.opt.value| < 256 }

  predicate ItemsOk(items: seq<Item>) { forall i | 0 <= i < |items| :: ItemOk(items[i]) }

  function Laid(items: seq<Item>): Bytes
    requires ItemsOk(items)
    decreases |items|
  {
    if items == [] then []
    else
      assert ItemOk(items[0]);
      (if items[0].Pad? then [0] else [items[0].opt.code, |items[0].opt.value| as byte] + items[0].opt.value)
      + Laid(items[1..])
  }

  function Values(items: seq<Item>): seq<Opt>
    decreases |items|
  {
    if items == [] then [] else (if items[0].Pad? then [] else [items[0].opt]) + Values(items[1..])
  }

  /** Options are read back as laid out, whatever pads are between them and whatever follows the End option. */
  lemma {:induction false} OptionsReadBack(items: seq<Item>, rest: Bytes)
    requires ItemsOk(items)
    ensures OptionsIn(Laid(items) + [END] + rest) == Values(items)
    decreases |items|
  {
    var all := Laid(items) + [END] + rest;
    if items != [] {
      assert ItemOk(items[0]);
      var tail := Laid(items[1..]) + [END] + rest;
      OptionsReadBack(items[1..], rest);
      if items[0].Pad? {
        assert all == [0] + tail;
        assert all[1..] == tail;
      } else {
        var o := items[0].opt;
        assert all == [o.code, |o.value| as byte] + o.value + tail;
        OptionStep(o, tail);
      }
    }
  }

  lemma OptionStep(o: Opt, tail: Bytes)
    requires o.code != 0 && o.code != END && |o.value| < 256
    ensures OptionsIn([o.code, |o.value| as byte] + o.value + tail) == [o] + OptionsIn(tail)
  {
    var all := [o.code, |o.value| as byte] + o.value + tail;
    assert all[2..2 + |o.value|] == o.value;
    assert all[2 + |o.value|..] == tail;
  }

  // ----- what a list of options says

  datatype Reply = Reply(address: Bytes, mask: Option<Bytes>, router: Option<Bytes>, dns: seq<Bytes>,
      serverId: Option<Bytes>)

  /** The parser's state between two options. */
  datatype Progress = Progress(kind: byte, reply: Reply) | Broken

  function Addresses(v: Bytes): seq<Bytes>
    decreases |v|
  {
    if |v| < 4 then [] else [v[..4]] + Addresses(v[4..])
  }

  /** Taking in one option; an empty message type makes the parser read past its end. */
  function Take(p: Progress, o: Opt): Progress {
    if p.Broken? then Broken
    else if o.code == MESSAGE_TYPE then (if o.value == [] then Broken else p.(kind := o.value[0]))
    else if o.code == SUBNET_MASK then (if |o.value| == 4 then p.(reply := p.reply.(mask := Some(o.value))) else p)
    else if o.code == ROUTER then (if |o.value| >= 4 then p.(reply := p.reply.(router := Some(o.value[..4]))) else p)
    else if o.code == DNS then p.(reply := p.reply.(dns := p.reply.dns + Addresses(o.value)))
    else if o.code == SERVER_ID then (if |o.value| == 4 then p.(reply := p.reply.(serverId := Some(o.value))) else p)
    else p
  }

  function TakeAll(p: Progress, opts: seq<Opt>): Progress
    decreases |opts|
  {
    if opts == [] then p else TakeAll(Take(p, opts[0]), opts[1..])
  }

  /** The last value of an option that is long enough and, if `exact`, not longer. */
  function LastValue(opts: seq<Opt>, code: byte, size: nat, exact: bool): Option<Bytes>
    decreases |opts|
  {
    if opts == [] then None
    else
      var o := opts[|opts| - 1];
      if o.code == code && (if exact then |o.value| == size else |o.value| >= size) then Some(o.value)
      else LastValue(opts[..|opts| - 1], code, size, exact)
  }

  function AllAddresses(opts: seq<Opt>): seq<Bytes>
    decreases |opts|
  {
    if opts == [] then []
    else
      var o := opts[|opts| - 1];
      AllAddresses(opts[..|opts| - 1]) + if o.code == DNS then Addresses(o.value) else []
  }

  predicate HasEmptyType(opts: seq<Opt>) {
    exists i | 0 <= i < |opts| :: opts[i].code == MESSAGE_TYPE && opts[i].value == []
  }

  function FirstFour(v: Option<Bytes>): Option<Bytes> {
    if v.Some? && |v.value| >= 4 then Some(v.value[..4]) else None
  }

  /** The kind of a message: that of its last message type option, 0 without one. */
  function KindOf(opts: seq<Opt>): byte {
    var v := LastValue(opts, MESSAGE_TYPE, 1, false);
    if v.Some? && v.value != [] then v.value[0] else 0
  }

  function ReplyOf(address: Bytes, opts: seq<Opt>): Reply {
    Reply(address, LastValue(opts, SUBNET_MASK, 4, true), FirstFour(LastValue(opts, ROUTER, 4, false)),
          AllAddresses(opts), LastValue(opts, SERVER_ID, 4, true))
  }

  function Empty(address: Bytes): Progress { Progress(0, Reply(address, None, None, [], None)) }

  lemma {:induction false} TakeOneMore(p: Progress, opts: seq<Opt>, o: Opt)
    ensures TakeAll(p, opts + [o]) == Take(TakeAll(p, opts), o)
    decreases |opts|
  {
    hide Take;
    if opts == [] {
      assert (opts + [o])[1..] == [];
    } else {
      assert (opts + [o])[1..] == opts[1..] + [o];
      TakeOneMore(Take(p, opts[0]), opts[1..], o);
    }
  }

  /** What is taken in, option by option, is the last good value of each kind and all name servers in order. */
  lemma {:induction false} TakenMeans(address: Bytes, opts: seq<Opt>)
    ensures TakeAll(Empty(address), opts)
            == if HasEmptyType(opts) then Broken else Progress(KindOf(opts), ReplyOf(address, opts))
    decreases |opts|
  {
    hide Take, TakeAll, HasEmptyType, KindOf, ReplyOf;
    if opts == [] {
      NothingTaken(address);
    } else {
      var front, o := opts[..|opts| - 1], opts[|opts| - 1];
      assert opts == front + [o];
      TakeOneMore(Empty(address), front, o);
      TakenMeans(address, front);
      EmptyTypeOneMore(front, o);
      if !HasEmptyType(opts) {
        MeansOneMore(address, front, o);
      }
      assert HasEmptyType(front) ==> Take(Broken, o) == Broken by { BrokenStays(o); }
    }
  }

  lemma BrokenStays(o: Opt)
    ensures Take(Broken, o) == Broken
  {
  }

  lemma NothingTaken(address: Bytes)
    ensures TakeAll(Empty(address), []) == Progress(KindOf([]), ReplyOf(address, [])) && !HasEmptyType([])
  {
  }

  lemma EmptyTypeOneMore(opts: seq<Opt>, o: Opt)
    ensures HasEmptyType(opts + [o]) <==> HasEmptyType(opts) || (o.code == MESSAGE_TYPE && o.value == [])
    ensures o.code == MESSAGE_TYPE && o.value == [] ==> forall p :: Take(p, o) == Broken
  {
    var all := opts + [o];
    assert all[|opts|] == o;
    if HasEmptyType(opts) {
      var i :| 0 <= i < |opts| && opts[i].code == MESSAGE_TYPE && opts[i].value == [];
      assert all[i] == opts[i];
    }
  }

  lemma LastOneMore(opts: seq<Opt>, o: Opt, code: byte, size: nat, exact: bool)
    ensures LastValue(opts + [o], code, size, exact)
            == if o.code == code && (if exact then |o.value| == size else |o.value| >= size) then Some(o.value)
               else LastValue(opts, code, size, exact)
  {
    assert (opts + [o])[..|opts|] == opts;
  }

  lemma AddressesOneMore(opts: seq<Opt>, o: Opt)
    ensures AllAddresses(opts + [o]) == AllAddresses(opts) + if o.code == DNS then Addresses(o.value) else []
  {
    assert (opts + [o])[..|opts|] == opts;
  }

  lemma MeansOneMore(address: Bytes, opts: seq<Opt>, o: Opt)
    requires o.code == MESSAGE_TYPE ==> o.value != []
    ensures Take(Progress(KindOf(opts), ReplyOf(address, opts)), o)
            == Progress(KindOf(opts + [o]), ReplyOf(address, opts + [o]))
  {
    hide LastValue, AllAddresses, Addresses;
    LastOneMore(opts, o, MESSAGE_TYPE, 1, false);
    LastOneMore(opts, o, SUBNET_MASK, 4, true);
    LastOneMore(opts, o, ROUTER, 4, false);
    LastOneMore(opts, o, SERVER_ID, 4, true);
    AddressesOneMore(opts, o);
  }

  // ----- the parser

  datatype Outcome = Accepted(reply: Reply) | Ignored | Panics

  predicate HeaderMatches(b: Bytes, xid: u32) {
    |b| >= 240 && b[0] == 2 && U32At(b, 4) == xid && U32At(b, 236) == MAGIC
  }

  function Concluded(p: Progress, want: byte): Outcome {
    if p.Broken? then Panics else if p.kind != want then Ignored else Accepted(p.reply)
  }

  /** The answer of the parser, from the list of options alone. */
  function Parsed(b: Bytes, xid: u32, want: byte): Outcome {
    if !HeaderMatches(b, xid) then Ignored else Concluded(TakeAll(Empty(b[16..20]), OptionsIn(b[240..])), want)
  }

  method AppendServers(dns: seq<Bytes>, v: Bytes) returns (out: seq<Bytes>)
    ensures out == dns + Addresses(v)
  {
    out := dns;
    var j := 0;
    while j + 4 <= |v|
      invariant 0 <= j <= |v| && out + Addresses(v[j..]) == dns + Addresses(v)
    {
      ghost var before := out;
      assert v[j..][..4] == v[j..j + 4] && v[j..][4..] == v[j + 4..];
      out := out + [v[j..j + 4]];
      assert out + Addresses(v[j + 4..]) == before + Addresses(v[j..]);
      j := j + 4;
    }
    assert out + [] == out;
  }

  method TakeOption(p: Progress, opt: byte, v: Bytes) returns (q: Progress)
    requires p.Progress?
    ensures q == Take(p, Opt(opt, v))
  {
    hide Addresses;
    q := p;
    if opt == MESSAGE_TYPE {
      if |v| == 0 {
        return Broken;
      }
      q := p.(kind := v[0]);
    } else if opt == SUBNET_MASK {
      if |v| == 4 {
        q := p.(reply := p.reply.(mask := Some(v)));
      }
    } else if opt == ROUTER {
      if |v| >= 4 {
        q := p.(reply := p.reply.(router := Some(v[..4])));
      }
    } else if opt == DNS {
      var dns := AppendServers(p.reply.dns, v);
      q := p.(reply := p.reply.(dns := dns));
    } else if opt == SERVER_ID {
      if |v| == 4 {
        q := p.(reply := p.reply.(serverId := Some(v)));
      }
    }
  }

  lemma OptionsStep(b: Bytes)
    ensures b == [] || b[0] == END ==> OptionsIn(b) == []
    ensures b != [] && b[0] == 0 ==> OptionsIn(b) == OptionsIn(b[1..])
    ensures b != [] && b[0] != END && b[0] != 0 && (|b| < 2 || 2 + b[1] as int > |b|) ==> OptionsIn(b) == []
    ensures |b| >= 2 && b[0] != END && b[0] != 0 && 2 + b[1] as int <= |b| ==>
              var n := b[1] as int;
              OptionsIn(b) == [Opt(b[0], b[2..2 + n])] + OptionsIn(b[2 + n..])
  {
  }

  lemma {:induction false} BrokenForGood(opts: seq<Opt>)
    ensures TakeAll(Broken, opts) == Broken
    decreases |opts|
  {
    if opts != [] {
      BrokenForGood(opts[1..]);
    }
  }

  lemma TakeFirst(p: Progress, o: Opt, rest: seq<Opt>)
    ensures TakeAll(p, [o] + rest) == TakeAll(Take(p, o), rest)
    ensures TakeAll(p, []) == p
  {
    hide Take;
    assert ([o] + rest)[1..] == rest;
  }

  method ParseReply(b: Bytes, xid: u32, want: byte) returns (r: Outcome)
    ensures r == Parsed(b, xid, want)
  {
    hide OptionsIn, Take, TakeAll;
    if |b| < 240 || b[0] != 2 || U32At(b, 4) != xid {
      return Ignored;
    }
    if U32At(b, 236) != MAGIC {
      return Ignored;
    }
    var p := Empty(b[16..20]);
    ghost var all := TakeAll(p, OptionsIn(b[240..]));
    var i := 240;
    while i < |b|
      invariant 240 <= i <= |b| && p.Progress? && TakeAll(p, OptionsIn(b[i..])) == all
    {
      ghost var left := b[i..];
      OptionsStep(left);
      TakeFirst(p, Opt(0, []), []);
      var opt := b[i];
      if opt == END {
        break;
      }
      if opt == 0 {
        assert left[1..] == b[i + 1..];
        i := i + 1;
        continue;
      }
      if i + 1 >= |b| {
        break;
      }
      var n := b[i + 1] as int;
      if i + 2 + n > |b| {
        break;
      }
      var v := b[i + 2..i + 2 + n];
      assert left[2..2 + n] == v && left[2 + n..] == b[i + 2 + n..];
      TakeFirst(p, Opt(opt, v), OptionsIn(b[i + 2 + n..]));
      p := TakeOption(p, opt, v);
      if p.Broken? {
        BrokenForGood(OptionsIn(b[i + 2 + n..]));
        return Panics;
      }
      i := i + 2 + n;
    }
    OptionsStep([]);
    TakeFirst(p, Opt(0, []), []);
    assert i == |b| ==> b[i..] == [];
    assert p == all;
    if p.kind != want {
      return Ignored;
    }
    return Accepted(p.reply);
  }

  /** A well laid-out message is accepted exactly when operation, transaction, magic and last message type match; it
      then says the last mask, the first address of the last router list, the last server and every name server in
      order. It makes the parser panic exactly when it matches otherwise and has an empty message type option. */
  lemma ReplyMeans(header: Bytes, items: seq<Item>, rest: Bytes, xid: u32, want: byte)
    requires |header| == 240 && ItemsOk(items)
    ensures var b := header + (Laid(items) + [END] + rest); var opts := Values(items);
            Parsed(b, xid, want)
            == if header[0] != 2 || U32At(header, 4) != xid || U32At(header, 236) != MAGIC then Ignored
               else if HasEmptyType(opts) then Panics
               else if KindOf(opts) != want then Ignored
               else Accepted(ReplyOf(header[16..20], opts))
  {
    hide OptionsIn, TakeAll, HasEmptyType, KindOf, ReplyOf, Laid;
    var b := header + (Laid(items) + [END] + rest);
    assert b[240..] == Laid(items) + [END] + rest && b[16..20] == header[16..20];
    assert U32At(b, 4) == U32At(header, 4) && U32At(b, 236) == U32At(header, 236);
    OptionsReadBack(items, rest);
    TakenMeans(header[16..20], Values(items));
  }

  // ----- the request

  /** net.IP.To4: an address of four bytes, or an IPv4 one in the sixteen bytes of IPv6; nothing for any other. */
  function To4(ip: Bytes): Bytes {
    if |ip| == 4 then ip
    else if |ip| == 16 && (forall i | 0 <= i < 10 :: ip[i] == 0) && ip[10] == 0xff && ip[11] == 0xff then ip[12..]
    else []
  }

  /** Not given, or an address that To4 knows. */
  predicate IsAddress(a: Option<Bytes>) { a.Some? ==> |To4(a.value)| == 4 }

  function OptFor(code: byte, address: Option<Bytes>): seq<Opt> {
    if address.Some? then [Opt(code, To4(address.value))] else []
  }

  /** What a request asks: the message type, the address asked for, the server chosen and the parameters wanted. */
  function RequestOpts(kind: byte, requested: Option<Bytes>, serverId: Option<Bytes>): seq<Opt> {
    [Opt(MESSAGE_TYPE, [kind])]
    + (OptFor(REQUESTED_IP, requested)
       + (OptFor(SERVER_ID, serverId) + [Opt(PARAM_REQUEST, [SUBNET_MASK, ROUTER, DNS])]))
  }

  /** The length byte says four, whatever To4 gives. */
  function BytesFor(code: byte, address: Option<Bytes>): Bytes {
    if address.Some? then [code, 4] + To4(address.value) else []
  }

  function RequestBytes(kind: byte, requested: Option<Bytes>, serverId: Option<Bytes>): Bytes {
    [MESSAGE_TYPE, 1, kind]
    + (BytesFor(REQUESTED_IP, requested)
       + (BytesFor(SERVER_ID, serverId) + [PARAM_REQUEST, 3, SUBNET_MASK, ROUTER, DNS, END]))
  }

  lemma GoodAddress(code: byte, address: Option<Bytes>, tail: Bytes)
    requires code != 0 && code != END && IsAddress(address)
    ensures OptionsIn(BytesFor(code, address) + tail) == OptFor(code, address) + OptionsIn(tail)
  {
    hide OptionsIn, To4;
    if address.Some? {
      OptionStep(Opt(code, To4(address.value)), tail);
    } else {
      assert BytesFor(code, address) + tail == tail;
    }
  }

  /** Without an address the option takes the next four bytes for its value. */
  lemma BadAddress(code: byte, address: Option<Bytes>, tail: Bytes)
    requires code != 0 && code != END && !IsAddress(address) && |tail| >= 4
    ensures OptionsIn(BytesFor(code, address) + tail) == [Opt(code, tail[..4])] + OptionsIn(tail[4..])
    ensures OptFor(code, address) == [Opt(code, [])]
  {
    hide OptionsIn, To4;
    var value, rest := tail[..4], tail[4..];
    OptionStep(Opt(code, value), rest);
    NotAnAddress(address.value);
    assert tail == value + rest;
    assert BytesFor(code, address) == [code, 4];
    assert [code, 4] + (value + rest) == [code, 4] + value + rest;
  }

  lemma NotAnAddress(ip: Bytes)
    requires |To4(ip)| != 4
    ensures To4(ip) == []
  {
  }

  lemma ParametersReadBack()
    ensures OptionsIn([PARAM_REQUEST, 3, SUBNET_MASK, ROUTER, DNS, END])
            == [Opt(PARAM_REQUEST, [SUBNET_MASK, ROUTER, DNS])]
  {
    var o := Opt(PARAM_REQUEST, [SUBNET_MASK, ROUTER, DNS]);
    OptionStep(o, [END]);
    assert [o.code, |o.value| as byte] + o.value + [END] == [PARAM_REQUEST, 3, SUBNET_MASK, ROUTER, DNS, END];
  }

  lemma ServerReadsBack(serverId: Option<Bytes>)
    ensures var params: Bytes := [PARAM_REQUEST, 3, SUBNET_MASK, ROUTER, DNS, END];
            var wanted := [Opt(PARAM_REQUEST, [SUBNET_MASK, ROUTER, DNS])];
            OptionsIn(BytesFor(SERVER_ID, serverId) + params) == OptFor(SERVER_ID, serverId) + wanted
            <==> IsAddress(serverId)
  {
    hide OptionsIn, IsAddress, BytesFor, OptFor;
    var params: Bytes := [PARAM_REQUEST, 3, SUBNET_MASK, ROUTER, DNS, END];
    ParametersReadBack();
    if IsAddress(serverId) {
      GoodAddress(SERVER_ID, serverId, params);
    } else {
      BadAddress(SERVER_ID, serverId, params);
      DifferAt(Opt(SERVER_ID, params[..4]), OptionsIn(params[4..]), Opt(SERVER_ID, []),
               [Opt(PARAM_REQUEST, [SUBNET_MASK, ROUTER, DNS])]);
    }
  }

  lemma DifferAt(o: Opt, os: seq<Opt>, q: Opt, qs: seq<Opt>)
    requires o.value != q.value
    ensures [o] + os != [q] + qs
  {
    assert ([o] + os)[0] == o && ([q] + qs)[0] == q;
  }

  lemma SameFront(front: seq<Opt>, a: seq<Opt>, b: seq<Opt>)
    ensures front + a == front + b <==> a == b
  {
    assert (front + a)[|front|..] == a && (front + b)[|front|..] == b;
  }

  /** The options of a request read back as what was asked exactly when both addresses are left out or known to To4. */
  lemma RequestReadsBackExactly(kind: byte, requested: Option<Bytes>, serverId: Option<Bytes>)
    ensures OptionsIn(RequestBytes(kind, requested, serverId)) == RequestOpts(kind, requested, serverId)
            <==> IsAddress(requested) && IsAddress(serverId)
  {
    hide OptionsIn, IsAddress, BytesFor, OptFor;
    var tail := BytesFor(SERVER_ID, serverId) + [PARAM_REQUEST, 3, SUBNET_MASK, ROUTER, DNS, END];
    var asked := OptFor(SERVER_ID, serverId) + [Opt(PARAM_REQUEST, [SUBNET_MASK, ROUTER, DNS])];
    var middle := BytesFor(REQUESTED_IP, requested) + tail;
    OptionStep(Opt(MESSAGE_TYPE, [kind]), middle);
    assert RequestBytes(kind, requested, serverId) == [MESSAGE_TYPE, 1] + [kind] + middle;
    SameFront([Opt(MESSAGE_TYPE, [kind])], OptionsIn(middle), OptFor(REQUESTED_IP, requested) + asked);
    ServerReadsBack(serverId);
    if IsAddress(requested) {
      GoodAddress(REQUESTED_IP, requested, tail);
      SameFront(OptFor(REQUESTED_IP, requested), OptionsIn(tail), asked);
    } else {
      BadAddress(REQUESTED_IP, requested, tail);
      DifferAt(Opt(REQUESTED_IP, tail[..4]), OptionsIn(tail[4..]), Opt(REQUESTED_IP, []), asked);
    }
  }

  /** The fixed part of a request. */
  predicate RequestHeader(b: Bytes, hw: Bytes, xid: u32) {
    && |b| >= 240 && b[0] == 1 && b[1] == 1 && b[2] == 6 && U32At(b, 4) == xid && U32At(b, 236) == MAGIC
    && b[10] == 0x80 && (|hw| <= 16 ==> b[28..28 + |hw|] == hw)
  }

  /** binary.BigEndian.PutUint32. */
  method PutU32(b: array<byte>, at: nat, v: u32)
    requires at + 4 <= b.Length
    modifies b
    ensures b[at..at + 4] == U32Bytes(v)
    ensures forall k | 0 <= k < b.Length && !(at <= k < at + 4) :: b[k] == old(b[k])
  {
    var x := U32Bytes(v);
    hide U32Bytes;
    b[at], b[at + 1], b[at + 2], b[at + 3] := x[0], x[1], x[2], x[3];
  }

  /** Go's copy: as much as there is room for. */
  method CopyTo(b: array<byte>, at: nat, src: Bytes)
    requires at <= b.Length
    modifies b
    ensures var n := Min(|src|, b.Length - at);
            && (forall k | 0 <= k < n :: b[at + k] == src[k])
            && forall k | 0 <= k < b.Length && !(at <= k < at + n) :: b[k] == old(b[k])
  {
    var n := Min(|src|, b.Length - at);
    forall k | 0 <= k < n {
      b[at + k] := src[k];
    }
  }

  method FixedPart(hw: Bytes, xid: u32) returns (b: Bytes)
    ensures |b| == 240 && RequestHeader(b, hw, xid)
  {
    hide U32Bytes, RequestHeader;
    var fixed := new byte[240](i => 0);
    fixed[0], fixed[1], fixed[2] := 1, 1, 6;
    PutU32(fixed, 4, xid);
    fixed[10] := 0x80;
    ghost var before := fixed[..];
    CopyTo(fixed, 28, hw);
    ghost var copied := fixed[..];
    PutU32(fixed, 236, MAGIC);
    b := fixed[..];
    assert b[4..8] == before[4..8];
    HeaderIs(b, hw, xid);
  }

  lemma HeaderIs(b: Bytes, hw: Bytes, xid: u32)
    requires |b| == 240 && b[0] == 1 && b[1] == 1 && b[2] == 6 && b[10] == 0x80
    requires b[4..8] == U32Bytes(xid) && b[236..240] == U32Bytes(MAGIC)
    requires forall k | 0 <= k < |hw| && k < 208 :: b[28 + k] == hw[k]
    ensures RequestHeader(b, hw, xid)
  {
    hide U32Bytes;
    U32ReadsBack(b, 4, xid);
    U32ReadsBack(b, 236, MAGIC);
  }

  lemma HeaderStays(header: Bytes, tail: Bytes, hw: Bytes, xid: u32)
    requires |header| == 240 && RequestHeader(header, hw, xid)
    ensures RequestHeader(header + tail, hw, xid)
  {
    var b := header + tail;
    assert |hw| <= 16 ==> b[28..28 + |hw|] == header[28..28 + |hw|];
  }

  /** A request carries its transaction and hardware address where RFC 2131 puts them, and its options read back as the
      message type, the address asked for, the server chosen and the parameters wanted, in that order, exactly when
      To4 knows the addresses that are given. */
  method BuildMessage(hw: Bytes, xid: u32, kind: byte, requested: Option<Bytes>, serverId: Option<Bytes>)
    returns (b: Bytes)
    ensures RequestHeader(b, hw, xid) && b[240..] == RequestBytes(kind, requested, serverId)
    ensures OptionsIn(b[240..]) == RequestOpts(kind, requested, serverId)
            <==> IsAddress(requested) && IsAddress(serverId)
  {
    hide OptionsIn, RequestHeader, RequestOpts, IsAddress, To4;
    b := FixedPart(hw, xid);
    ghost var header := b;
    var tail := [MESSAGE_TYPE, 1, kind];
    if requested.Some? {
      tail := tail + ([REQUESTED_IP, 4] + To4(requested.value));
    }
    if serverId.Some? {
      tail := tail + ([SERVER_ID, 4] + To4(serverId.value));
    }
    tail := tail + [PARAM_REQUEST, 3, SUBNET_MASK, ROUTER, DNS];
    tail := tail + [END];
    b := b + tail;
    RequestBytesAre(kind, requested, serverId);
    RequestReadsBackExactly(kind, requested, serverId);
    assert b[240..] == tail;
    HeaderStays(header, tail, hw, xid);
  }

  lemma RequestBytesAre(kind: byte, requested: Option<Bytes>, serverId: Option<Bytes>)
    ensures var one: Bytes := [MESSAGE_TYPE, 1, kind];
            var two := if requested.Some? then one + ([REQUESTED_IP, 4] + To4(requested.value)) else one;
            var three := if serverId.Some? then two + ([SERVER_ID, 4] + To4(serverId.value)) else two;
            RequestBytes(kind, requested, serverId) == three + [PARAM_REQUEST, 3, SUBNET_MASK, ROUTER, DNS] + [END]
  {
    hide To4;
  }
}
