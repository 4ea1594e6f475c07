/** What the port map reads from names, bays and kinds, said without the functions that read it:
    internal/cmdline/autorender.go. */
module PortNames {
  import opened GoStrings
  import opened PortMap
  import opened PortMapMeaning
  import opened ChosenBays

  // ----- the number in a port name

  predicate NoDigit(s: Bytes) { forall i | 0 <= i < |s| :: !IsDigit(s[i]) }

  lemma FirstDigitIs(name: Bytes, a: nat)
    requires a <= |name| && NoDigit(name[..a]) && (a < |name| ==> IsDigit(name[a]))
    ensures FirstDigit(name, 0) == a
  {
    assert forall k | 0 <= k < a :: name[..a][k] == name[k];
  }

  lemma DigitsEndIs(name: Bytes, a: nat, e: nat)
    requires a <= e <= |name| && AllDigits(name[a..e]) && (e < |name| ==> !IsDigit(name[e]))
    ensures DigitsEnd(name, a) == e
  {
    assert forall k | a <= k < e :: name[a..e][k - a] == name[k];
  }

  lemma NumberOfParts(prefix: Bytes, digits: Bytes, rest: Bytes)
    requires NoDigit(prefix) && digits != [] && AllDigits(digits) && (rest != [] ==> !IsDigit(rest[0]))
    ensures AtaNumber(prefix + digits + rest) == Signed(DigitsValue(digits))
  {
    hide FirstDigit, DigitsEnd, DigitsValue, Signed;
    var name, a, e := prefix + digits + rest, |prefix|, |prefix| + |digits|;
    assert name[..a] == prefix && name[a] == digits[0] && name[a..e] == digits;
    assert e < |name| ==> name[e] == rest[0];
    FirstDigitIs(name, a);
    DigitsEndIs(name, a, e);
  }

  function Zeros0(n: nat): (z: Bytes)
    ensures |z| == n && AllDigits(z)
  {
    seq(n, _ => 48)
  }

  lemma {:induction false} LeadingZeros(zeros: nat, s: Bytes)
    requires AllDigits(s)
    ensures AllDigits(Zeros0(zeros) + s) && DigitsValue(Zeros0(zeros) + s) == DigitsValue(s)
    decreases |s|, zeros
  {
    var all := Zeros0(zeros) + s;
    if s != [] {
      LeadingZeros(zeros, s[..|s| - 1]);
      assert all[..|all| - 1] == Zeros0(zeros) + s[..|s| - 1];
    } else if zeros > 0 {
      LeadingZeros(zeros - 1, s);
      assert all[..|all| - 1] == Zeros0(zeros - 1) + s;
    }
  }

  lemma SignedWraps(n: nat)
    ensures var r := Signed(n);
            && -0x8000_0000_0000_0000 <= r < 0x8000_0000_0000_0000
            && (n - r) % 0x1_0000_0000_0000_0000 == 0
            && (n < 0x8000_0000_0000_0000 ==> r == n)
  {
  }

  /** A name with one number in it, leading zeros or not, has that number, wrapped around as a 64-bit int. */
  lemma NumberIsRead(prefix: Bytes, zeros: nat, n: nat, rest: Bytes)
    requires NoDigit(prefix) && (rest != [] ==> !IsDigit(rest[0]))
    ensures var r := AtaNumber(prefix + (Zeros0(zeros) + Itoa(n)) + rest);
            && -0x8000_0000_0000_0000 <= r < 0x8000_0000_0000_0000
            && (n - r) % 0x1_0000_0000_0000_0000 == 0
            && (n < 0x8000_0000_0000_0000 ==> r == n)
  {
    hide AtaNumber, Signed, DigitsValue, Itoa, Zeros0;
    LeadingZeros(zeros, Itoa(n));
    NumberOfParts(prefix, Zeros0(zeros) + Itoa(n), rest);
    ItoaReadsBack(n);
    SignedWraps(n);
  }

  /** A name without digits sorts to the back. */
  lemma NoNumberIsRead(name: Bytes)
    requires NoDigit(name)
    ensures AtaNumber(name) == 0x4000_0000
  {
    assert name[..|name|] == name;
    FirstDigitIs(name, |name|);
  }

  lemma AtaName(n: nat)
    requires n < 0x8000_0000_0000_0000
    ensures AtaNumber(Ascii("ata") + Itoa(n)) == n
  {
    hide AtaNumber, Itoa;
    var none: Bytes := [];
    assert Ascii("ata")[0] == 97 && Ascii("ata")[1] == 116 && Ascii("ata")[2] == 97;
    NumberIsRead(Ascii("ata"), 0, n, none);
    assert Ascii("ata") + (Zeros0(0) + Itoa(n)) + none == Ascii("ata") + Itoa(n);
  }

  /** The controllers stand in the order of their numbers, not of their names: ata7 before ata10. */
  lemma ByNumber(x: Controller, y: Controller, m: nat, n: nat)
    requires |x.ports| == 1 && |y.ports| == 1 && m < n < 0x4000_0000
    requires x.ports[0].name == Ascii("ata") + Itoa(n) && y.ports[0].name == Ascii("ata") + Itoa(m)
    ensures SortByAta([x, y]) == [y, x] && SortByAta([y, x]) == [y, x]
  {
    hide AtaNumber, Itoa, MinAta;
    AtaName(m);
    AtaName(n);
    OnePort(x.ports);
    OnePort(y.ports);
    TwoSorted(x, y);
    TwoSorted(y, x);
  }

  lemma OnePort(ports: seq<Port>)
    requires |ports| == 1 && AtaNumber(ports[0].name) < 0x4000_0000
    ensures MinAta(ports) == AtaNumber(ports[0].name)
  {
    hide AtaNumber;
    assert ports[..0] == [];
  }

  lemma TwoSorted(x: Controller, y: Controller)
    ensures SortByAta([x, y]) == if MinAta(y.ports) < MinAta(x.ports) then [y, x] else [x, y]
  {
    hide MinAta, SortByAta, InsertByAta;
    SortStep([x, y]);
    assert [x, y][..1] == [x];
    OneSorted(x);
    InsertSecond(x, y);
  }

  lemma OneSorted(x: Controller)
    ensures SortByAta([x]) == [x]
  {
    hide MinAta;
    assert [x][..0] == [];
    assert SortByAta([]) == [];
  }

  lemma InsertSecond(x: Controller, y: Controller)
    ensures InsertByAta([x], y) == if MinAta(y.ports) < MinAta(x.ports) then [y, x] else [x, y]
  {
    hide MinAta;
    var none: seq<Controller> := [];
    assert [x][..0] == none;
    assert InsertByAta(none, y) == none + [y] == [y];
  }

  // ----- which controllers count

  lemma SataOnlyNext(cs: seq<Controller>, c: Controller)
    ensures SataOnly(cs + [c]) == if c.kind == Sata then SataOnly(cs) + [c] else SataOnly(cs)
  {
    assert (cs + [c])[..|cs|] == cs;
  }

  function SataBefore(cs: seq<Controller>, i: nat): nat
    requires i <= |cs|
  {
    if i == 0 then 0 else SataBefore(cs, i - 1) + if cs[i - 1].kind == Sata then 1 else 0
  }

  /** The SATA controllers and no others, in their order: each stands behind those before it. */
  lemma {:induction false} SataOnlyAt(cs: seq<Controller>, i: nat, n: nat)
    requires i < n <= |cs| && cs[i].kind == Sata
    ensures |SataOnly(cs[..n])| == SataBefore(cs, n)
    ensures SataBefore(cs, i) < SataBefore(cs, n) && SataOnly(cs[..n])[SataBefore(cs, i)] == cs[i]
    decreases n
  {
    hide SataOnly;
    SataOnlySize(cs, n);
    SataOnlySize(cs, n - 1);
    SataBeforeNext(cs, i, n);
    assert cs[..n] == cs[..n - 1] + [cs[n - 1]];
    SataOnlyNext(cs[..n - 1], cs[n - 1]);
    if i < n - 1 {
      SataOnlyAt(cs, i, n - 1);
    }
  }

  lemma {:induction false} SataBeforeNext(cs: seq<Controller>, i: nat, n: nat)
    requires i < n <= |cs| && cs[i].kind == Sata
    ensures SataBefore(cs, i) < SataBefore(cs, n)
    decreases n
  {
    if i < n - 1 {
      SataBeforeNext(cs, i, n - 1);
    }
  }

  lemma {:induction false} SataOnlySize(cs: seq<Controller>, n: nat)
    requires n <= |cs|
    ensures |SataOnly(cs[..n])| == SataBefore(cs, n)
  {
    hide SataOnly;
    if n == 0 {
      assert SataOnly([]) == [] by { NoSata(); }
    } else {
      SataOnlySize(cs, n - 1);
      assert cs[..n] == cs[..n - 1] + [cs[n - 1]];
      SataOnlyNext(cs[..n - 1], cs[n - 1]);
    }
  }

  lemma NoSata()
    ensures SataOnly([]) == []
  {
  }

  // ----- where a controller starts

  /** The first listed port decides, whatever the others ask for: its bay less one less its index, but never below 0. */
  lemma {:induction false} FirstListedDecides(root: Bytes, ports: seq<Port>, bay: map<Bytes, nat>, k: nat)
    requires (forall b <- bay :: bay[b] >= 1) && k < |ports|
    requires forall i | 0 <= i < k :: PortKey(root, ports[i].index) !in bay
    requires PortKey(root, ports[k].index) in bay
    ensures var s := bay[PortKey(root, ports[k].index)] - 1 - ports[k].index;
            ChosenStart(root, ports, bay) == Some(if s < 0 then 0 else s)
    decreases k
  {
    hide PortKey;
    if k > 0 {
      FirstListedDecides(root, ports[1..], bay, k - 1);
    }
  }

  lemma {:induction false} NoneListed(root: Bytes, ports: seq<Port>, bay: map<Bytes, nat>)
    requires forall b <- bay :: bay[b] >= 1
    requires forall i | 0 <= i < |ports| :: PortKey(root, ports[i].index) !in bay
    ensures ChosenStart(root, ports, bay) == None
    decreases |ports|
  {
    hide PortKey;
    if ports != [] {
      NoneListed(root, ports[1..], bay);
    }
  }

  /** The last entry of a key decides its bay, and blank entries count. */
  lemma {:induction false} LastEntryWins(order: seq<Bytes>, n: nat)
    requires 1 <= n <= |order| && KeyIn(order, n) != []
    requires forall m: nat | n < m <= |order| :: KeyIn(order, m) != KeyIn(order, n)
    ensures KeyIn(order, n) in BayMap(order) && BayMap(order)[KeyIn(order, n)] == n
    decreases |order|
  {
    hide TrimSpace, BayMap;
    LastBay(order);
    if n < |order| {
      var front := order[..|order| - 1];
      assert forall m: nat | 1 <= m <= |front| :: KeyIn(front, m) == KeyIn(order, m);
      LastEntryWins(front, n);
      assert KeyIn(order, |order|) != KeyIn(order, n);
    }
  }

  lemma {:induction false} NoEntryNoBay(order: seq<Bytes>, key: Bytes)
    requires forall m: nat | 1 <= m <= |order| :: KeyIn(order, m) != key
    ensures key !in BayMap(order)
    decreases |order|
  {
    hide TrimSpace, BayMap;
    if order == [] {
      NoBays();
    } else {
      LastBay(order);
      var front := order[..|order| - 1];
      assert forall m: nat | 1 <= m <= |front| :: KeyIn(front, m) == KeyIn(order, m);
      NoEntryNoBay(front, key);
      assert KeyIn(order, |order|) != key;
    }
  }
}
