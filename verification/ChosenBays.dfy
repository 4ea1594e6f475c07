/** Which bay the command line gives a port chosen for one, and what blanking another bay changes. */
module ChosenBays {
  import opened GoStrings
  import opened PortMap
  import opened PortMapMeaning

  // ----- a chosen bay

  /** Controller i has port number p. */
  predicate HasPort(l: Layout, i: nat, p: u32)
    requires i < |l.cs|
  {
    exists k | 0 <= k < |l.cs[i].ports| :: l.cs[i].ports[k].index == p
  }

  /** Port number p of controller i is there, and listed for the bay. */
  predicate IsListed(l: Layout, i: nat, p: u32, bay: nat)
    requires i < |l.cs|
  {
    HasPort(l, i, p) && var key := PortKey(l.cs[i].pcieRoot, p); key in l.bay && l.bay[key] == bay
  }

  /** No chosen start lies between that of controller i and its port p, or at the port. */
  ghost predicate RoomFor(l: Layout, i: nat, p: nat)
    requires LayoutOk(l) && i < |l.cs| && ChosenOf(l, i).Some?
  {
    var s := ChosenOf(l, i).value;
    forall j: nat | j < |l.cs| && ChosenOf(l, j).Some? ::
      ChosenOf(l, j).value <= s || s + p < ChosenOf(l, j).value
  }

  /** The disk index the chosen bays give port p of controller i: its own, or the fallback's when no port is exposed. */
  ghost predicate ComesOutAt(l: Layout, maxBays: nat, i: nat, p: nat, d: nat)
    requires LayoutOk(l) && i < |l.cs| && ChosenOf(l, i).Some?
  {
    if AnyExposed(l, maxBays) then ChosenOf(l, i).value + p == d && p < Width(l, i) && p < 9 && RoomFor(l, i, p)
    else i == 0 && p == 0 && d == 0
  }

  lemma RoomIsNoneInside(l: Layout, starts: seq<int>, i: nat, p: nat)
    requires IsPlacement(l, starts) && i < |l.cs| && ChosenOf(l, i).Some?
    ensures NoChosenInside(l, starts, i, p + 1) <==> RoomFor(l, i, p)
  {
    hide ChosenOf, Fits;
    forall j: nat | j < |l.cs| && ChosenOf(l, j).Some? ensures starts[j] == ChosenOf(l, j).value {
      assert PlacedAt(l, starts, j);
    }
  }

  /** A port of a controller with a chosen start has a disk index inside the bays exactly when the chosen bays say
      so. */
  lemma IndexOfChosen(l: Layout, starts: seq<int>, maxBays: nat, i: nat, p: nat, d: nat)
    requires IsPlacement(l, starts) && StartsOk(l, starts) && InByte(starts)
    requires i < |l.cs| && ChosenOf(l, i).Some? && d < maxBays
    ensures MapsTo(RenderMaps(l, starts, maxBays), i, p, d) <==> ComesOutAt(l, maxBays, i, p, d)
  {
    hide Exposed, RenderMaps, ChosenOf, NoChosenInside, RoomFor, AnyExposed;
    AnyExposedIsKept(l, starts, maxBays);
    ExposedIsLargest(l, starts, maxBays, i, p + 1);
    RoomIsNoneInside(l, starts, i, p);
    assert PlacedAt(l, starts, i);
    if AnyExposed(l, maxBays) {
      GivenTo(l, starts, maxBays, i, p, d);
      if i == 0 && Exposed(l, starts, maxBays, 0) == 0 {
        ChosenIsNoHead(l, starts, maxBays);
      }
      if p < Exposed(l, starts, maxBays, i) {
        KeptCovers(l, starts, maxBays, i);
      }
    } else {
      MapsMeaning(l, starts, maxBays);
    }
  }

  lemma ChosenIsNoHead(l: Layout, starts: seq<int>, maxBays: nat)
    requires IsPlacement(l, starts) && StartsOk(l, starts) && |l.cs| > 0 && Exposed(l, starts, maxBays, 0) == 0
    requires ChosenOf(l, 0).Some?
    ensures starts[0] >= maxBays
  {
    hide Exposed, ChosenOf;
    if starts[0] < maxBays {
      ChosenExposes(l, starts, maxBays, 0);
    }
  }

  lemma {:induction false} SomeListedIsChosen(root: Bytes, ports: seq<Port>, bay: map<Bytes, nat>, k: nat)
    requires (forall b <- bay :: bay[b] >= 1) && k < |ports| && PortKey(root, ports[k].index) in bay
    ensures ChosenStart(root, ports, bay).Some?
  {
    hide PortKey;
    if PortKey(root, ports[0].index) !in bay {
      SomeListedIsChosen(root, ports[1..], bay, k - 1);
    }
  }

  lemma ListedIsChosen(l: Layout, i: nat, p: u32, bay: nat)
    requires LayoutOk(l) && i < |l.cs| && IsListed(l, i, p, bay)
    ensures ChosenOf(l, i).Some? && bay >= 1
  {
    hide PortKey;
    var k :| 0 <= k < |l.cs[i].ports| && l.cs[i].ports[k].index == p;
    SomeListedIsChosen(l.cs[i].pcieRoot, l.cs[i].ports, l.bay, k);
  }

  /** A listed port gets the disk index of its bay exactly when it agrees with the controller's chosen start, lies
      among the ports one digit can expose, and no other chosen start comes between. When no controller exposes a
      port, the fallback still gives index 0 to the first port of the first controller. */
  lemma BayIsHonouredExactly(l: Layout, starts: seq<int>, maxBays: nat, i: nat, p: u32, bay: nat)
    requires IsPlacement(l, starts) && StartsOk(l, starts) && InByte(starts)
    requires i < |l.cs| && IsListed(l, i, p, bay) && bay <= maxBays
    ensures ChosenOf(l, i).Some? && bay >= 1
    ensures MapsTo(RenderMaps(l, starts, maxBays), i, p, bay - 1) <==> ComesOutAt(l, maxBays, i, p, bay - 1)
  {
    hide RenderMaps, ChosenOf, ComesOutAt, MapsTo, IsListed, InByte;
    ListedIsChosen(l, i, p, bay);
    IndexOfChosen(l, starts, maxBays, i, p, bay - 1);
  }

  // ----- listed ports that agree

  /** Every listed port of the controller asks for the same start. */
  predicate Agree(root: Bytes, ports: seq<Port>, bay: map<Bytes, nat>, s: nat) {
    forall k | 0 <= k < |ports| ::
      var key := PortKey(root, ports[k].index); key in bay ==> bay[key] - 1 - ports[k].index == s
  }

  lemma {:induction false} AgreedStart(root: Bytes, ports: seq<Port>, bay: map<Bytes, nat>, s: nat)
    requires (forall b <- bay :: bay[b] >= 1) && Agree(root, ports, bay, s)
    ensures ChosenStart(root, ports, bay).Some? ==> ChosenStart(root, ports, bay) == Some(s)
  {
    hide PortKey;
    if ports != [] && PortKey(root, ports[0].index) !in bay {
      AgreedStart(root, ports[1..], bay, s);
    }
  }

  ghost predicate PortsAgree(l: Layout, i: nat, s: nat)
    requires i < |l.cs|
  {
    Agree(l.cs[i].pcieRoot, l.cs[i].ports, l.bay, s)
  }

  /** When a controller's listed ports agree on a start, each of them inside the bays is honoured exactly when one
      digit can expose it and no other chosen start lies behind that start and up to its bay. */
  lemma AgreementIsHonoured(l: Layout, starts: seq<int>, maxBays: nat, i: nat, s: nat, p: u32, bay: nat)
    requires IsPlacement(l, starts) && StartsOk(l, starts) && InByte(starts)
    requires i < |l.cs| && PortsAgree(l, i, s) && IsListed(l, i, p, bay) && bay <= maxBays
    ensures ChosenOf(l, i) == Some(s) && bay == s + p + 1
    ensures MapsTo(RenderMaps(l, starts, maxBays), i, p, bay - 1) <==>
              && p < Width(l, i) && p < 9
              && forall j: nat | j < |l.cs| && ChosenOf(l, j).Some? ::
                   ChosenOf(l, j).value <= s || bay <= ChosenOf(l, j).value
  {
    hide RenderMaps, ChosenOf, MapsTo, InByte, AnyExposed, PortKey;
    AgreedBay(l, i, s, p, bay);
    ChosenIsExposed(l, i, maxBays);
    BayIsHonouredExactly(l, starts, maxBays, i, p, bay);
  }

  lemma AgreedBay(l: Layout, i: nat, s: nat, p: u32, bay: nat)
    requires LayoutOk(l) && i < |l.cs| && PortsAgree(l, i, s) && IsListed(l, i, p, bay)
    ensures ChosenOf(l, i) == Some(s) && bay == s + p + 1
  {
    hide PortKey;
    ListedIsChosen(l, i, p, bay);
    AgreedStart(l.cs[i].pcieRoot, l.cs[i].ports, l.bay, s);
    assert Chosen(l.cs[i], l.bay) == Some(s);
  }

  lemma ChosenIsExposed(l: Layout, i: nat, maxBays: nat)
    requires LayoutOk(l) && i < |l.cs| && ChosenOf(l, i).Some? && ChosenOf(l, i).value < maxBays
    ensures AnyExposed(l, maxBays)
  {
    ChosenHasPorts(l.cs[i].pcieRoot, l.cs[i].ports, l.bay);
    hide ChosenOf;
    assert FreeBelow(l, i, maxBays);
  }

  /** And only ports that agree can all be honoured, where any port is exposed. */
  lemma HonouredAgree(l: Layout, starts: seq<int>, maxBays: nat, i: nat)
    requires IsPlacement(l, starts) && StartsOk(l, starts) && InByte(starts) && AnyExposed(l, maxBays)
    requires i < |l.cs| && ChosenOf(l, i).Some?
    requires forall p: u32, bay: nat | IsListed(l, i, p, bay) ::
               bay <= maxBays && MapsTo(RenderMaps(l, starts, maxBays), i, p, bay - 1)
    ensures PortsAgree(l, i, ChosenOf(l, i).value)
  {
    hide RenderMaps, ChosenOf, MapsTo, InByte, AnyExposed, PortKey;
    var c := l.cs[i];
    forall k | 0 <= k < |c.ports| && PortKey(c.pcieRoot, c.ports[k].index) in l.bay
      ensures l.bay[PortKey(c.pcieRoot, c.ports[k].index)] - 1 - c.ports[k].index == ChosenOf(l, i).value
    {
      var p, bay := c.ports[k].index, l.bay[PortKey(c.pcieRoot, c.ports[k].index)];
      assert IsListed(l, i, p, bay);
      BayIsHonouredExactly(l, starts, maxBays, i, p, bay);
    }
  }

  // ----- blanking a bay

  /** The key in bay number n, counted from 1. */
  function KeyIn(order: seq<Bytes>, n: nat): Bytes
    requires 1 <= n <= |order|
  {
    TrimSpace(order[n - 1])
  }

  ghost predicate NoKeyTwice(order: seq<Bytes>) {
    forall i: nat, j: nat | 1 <= i < j <= |order| && KeyIn(order, i) != [] :: KeyIn(order, i) != KeyIn(order, j)
  }

  /** Without repeats the bay of a key is the place of its entry. */
  lemma {:induction false} BayMapByPlace(order: seq<Bytes>, key: Bytes)
    requires NoKeyTwice(order) && key != []
    ensures key in BayMap(order) <==> exists n: nat | 1 <= n <= |order| :: KeyIn(order, n) == key
    ensures key in BayMap(order) ==> KeyIn(order, BayMap(order)[key]) == key
  {
    hide TrimSpace;
    if order != [] {
      var front := order[..|order| - 1];
      assert forall n: nat | 1 <= n <= |front| :: KeyIn(front, n) == KeyIn(order, n);
      assert NoKeyTwice(front);
      BayMapByPlace(front, key);
      var last := KeyIn(order, |order|);
      if key != last && exists n: nat | 1 <= n <= |order| :: KeyIn(order, n) == key {
        var n: nat :| 1 <= n <= |order| && KeyIn(order, n) == key;
        assert KeyIn(front, n) == key;
      }
    }
  }

  function Blanked(order: seq<Bytes>, n: nat): seq<Bytes>
    requires 1 <= n <= |order|
  {
    order[n - 1 := []]
  }

  lemma BlankKey()
    ensures TrimSpace([]) == []
  {
    hide TrimSpace, SpaceAt, SpaceBefore;
    NothingBlank();
    TrimmedIsSame([]);
  }

  lemma BlankedKeys(order: seq<Bytes>, n: nat)
    requires 1 <= n <= |order|
    ensures forall k: nat | 1 <= k <= |order| :: KeyIn(Blanked(order, n), k) == if k == n then [] else KeyIn(order, k)
    ensures NoKeyTwice(order) ==> NoKeyTwice(Blanked(order, n))
  {
    hide TrimSpace;
    BlankKey();
  }

  lemma BlankingRemovesOneKey(order: seq<Bytes>, n: nat, key: Bytes)
    requires NoKeyTwice(order) && 1 <= n <= |order| && key != [] && key != KeyIn(order, n)
    ensures key in BayMap(Blanked(order, n)) <==> key in BayMap(order)
    ensures key in BayMap(order) ==> BayMap(Blanked(order, n))[key] == BayMap(order)[key]
  {
    hide BayMap, KeyIn, Blanked;
    var blank := Blanked(order, n);
    assert |blank| == |order| by { BlankedSize(order, n); }
    BlankedKeys(order, n);
    BayMapByPlace(order, key);
    BayMapByPlace(blank, key);
    if key in BayMap(order) {
      assert KeyIn(blank, BayMap(order)[key]) == key;
    }
    if key in BayMap(blank) {
      assert KeyIn(order, BayMap(blank)[key]) == key;
    }
  }

  lemma BlankedSize(order: seq<Bytes>, n: nat)
    requires 1 <= n <= |order|
    ensures |Blanked(order, n)| == |order|
  {
  }

  /** Blanking a bay that holds none of a controller's ports never changes that controller's start. */
  lemma {:induction false} BlankingKeepsStarts(root: Bytes, ports: seq<Port>, order: seq<Bytes>, n: nat)
    requires NoKeyTwice(order) && 1 <= n <= |order|
    requires forall p <- ports :: PortKey(root, p.index) != KeyIn(order, n)
    ensures ChosenStart(root, ports, BayMap(Blanked(order, n))) == ChosenStart(root, ports, BayMap(order))
  {
    hide BayMap, KeyIn, Blanked, Itoa;
    if ports != [] {
      assert ports[0] in ports;
      BlankingRemovesOneKey(order, n, PortKey(root, ports[0].index));
      BlankingKeepsStarts(root, ports[1..], order, n);
    }
  }

  /** The bay blanked holds none of the controller's ports, or its listed ports agree. */
  ghost predicate StartIsSafe(l: Layout, i: nat, blanked: Bytes)
    requires i < |l.cs|
  {
    || (forall p <- l.cs[i].ports :: PortKey(l.cs[i].pcieRoot, p.index) != blanked)
    || exists s: nat :: PortsAgree(l, i, s)
  }

  ghost predicate BaysOf(l: Layout, order: seq<Bytes>) { l.bay == BayMap(order) }

  lemma ListedStaysListed(l: Layout, after: Layout, order: seq<Bytes>, n: nat, i: nat, p: u32, bay: nat)
    requires NoKeyTwice(order) && 1 <= n <= |order| && i < |l.cs| && after.cs == l.cs
    requires BaysOf(l, order) && BaysOf(after, Blanked(order, n))
    requires IsListed(l, i, p, bay) && PortKey(l.cs[i].pcieRoot, p) != KeyIn(order, n)
    ensures IsListed(after, i, p, bay)
  {
    hide BayMap, KeyIn, Blanked, Itoa;
    BlankingRemovesOneKey(order, n, PortKey(l.cs[i].pcieRoot, p));
  }

  /** Blanking takes away one listed port at most, so the others still agree. */
  lemma AgreementStays(l: Layout, after: Layout, order: seq<Bytes>, n: nat, i: nat, s: nat)
    requires NoKeyTwice(order) && 1 <= n <= |order| && i < |l.cs| && after.cs == l.cs
    requires BaysOf(l, order) && BaysOf(after, Blanked(order, n)) && PortsAgree(l, i, s)
    ensures PortsAgree(after, i, s)
  {
    hide BayMap, KeyIn, Blanked, Itoa;
    var c := l.cs[i];
    forall k | 0 <= k < |c.ports| && PortKey(c.pcieRoot, c.ports[k].index) in after.bay
      ensures after.bay[PortKey(c.pcieRoot, c.ports[k].index)] - 1 - c.ports[k].index == s
    {
      var key := PortKey(c.pcieRoot, c.ports[k].index);
      if key == KeyIn(order, n) {
        BlankedIsGone(order, n);
      } else {
        BlankingRemovesOneKey(order, n, key);
      }
    }
  }

  lemma BlankedIsGone(order: seq<Bytes>, n: nat)
    requires NoKeyTwice(order) && 1 <= n <= |order| && KeyIn(order, n) != []
    ensures KeyIn(order, n) !in BayMap(Blanked(order, n))
  {
    hide BayMap, KeyIn, Blanked;
    var blank, key := Blanked(order, n), KeyIn(order, n);
    BlankedSize(order, n);
    BlankedKeys(order, n);
    BayMapByPlace(blank, key);
    if key in BayMap(blank) {
      assert false;
    }
  }

  lemma SafeStartStays(l: Layout, after: Layout, order: seq<Bytes>, n: nat, i: nat, p: u32, bay: nat)
    requires NoKeyTwice(order) && 1 <= n <= |order| && i < |l.cs| && after.cs == l.cs
    requires BaysOf(l, order) && BaysOf(after, Blanked(order, n))
    requires IsListed(l, i, p, bay) && PortKey(l.cs[i].pcieRoot, p) != KeyIn(order, n)
    requires StartIsSafe(l, i, KeyIn(order, n))
    ensures LayoutOk(l) && LayoutOk(after) && ChosenOf(after, i) == ChosenOf(l, i) && ChosenOf(l, i).Some?
  {
    hide BayMap, KeyIn, Blanked, PortKey, IsListed, PortsAgree;
    ListedIsChosen(l, i, p, bay);
    if s: nat :| PortsAgree(l, i, s) {
      AgreementStays(l, after, order, n, i, s);
      ListedStaysListed(l, after, order, n, i, p, bay);
      AgreedBay(l, i, s, p, bay);
      AgreedBay(after, i, s, p, bay);
    } else {
      BlankingKeepsStarts(l.cs[i].pcieRoot, l.cs[i].ports, order, n);
    }
  }

  /** When blanking another bay is safe. A port that was in its bay is still there after the blanking exactly when no
      start chosen from the bays that are left lies in its way; on a machine that exposed no port, exactly when it
      still exposes none. A blanked port of the same controller that asked for another start may move the controller:
      then what BayIsHonouredExactly says of the bays that are left decides. */
  lemma BlankingIsSafeExactly(l: Layout, after: Layout, before: seq<int>, starts: seq<int>, order: seq<Bytes>, n: nat,
                              maxBays: nat, i: nat, p: u32, bay: nat)
    requires NoKeyTwice(order) && 1 <= n <= |order| && i < |l.cs| && after.cs == l.cs
    requires BaysOf(l, order) && BaysOf(after, Blanked(order, n))
    requires IsPlacement(l, before) && StartsOk(l, before) && InByte(before)
    requires IsPlacement(after, starts) && StartsOk(after, starts) && InByte(starts)
    requires IsListed(l, i, p, bay) && PortKey(l.cs[i].pcieRoot, p) != KeyIn(order, n) && bay <= maxBays
    requires StartIsSafe(l, i, KeyIn(order, n))
    requires bay >= 1 && MapsTo(RenderMaps(l, before, maxBays), i, p, bay - 1)
    ensures MapsTo(RenderMaps(after, starts, maxBays), i, p, bay - 1) <==>
              if AnyExposed(l, maxBays) then
                forall j: nat | j < |l.cs| && ChosenOf(after, j).Some? ::
                  ChosenOf(after, j).value >= bay || ChosenOf(after, j).value + p < bay
              else !AnyExposed(after, maxBays)
  {
    hide RenderMaps, ChosenOf, MapsTo, InByte, AnyExposed, PortKey, BaysOf, KeyIn, Blanked, NoKeyTwice, StartIsSafe,
         IsListed, IsPlacement, StartsOk;
    SafeStartStays(l, after, order, n, i, p, bay);
    BayIsHonouredExactly(l, before, maxBays, i, p, bay);
    if ChosenOf(l, i).value < maxBays {
      ChosenIsExposed(l, i, maxBays);
      ChosenIsExposed(after, i, maxBays);
    }
    ListedStaysListed(l, after, order, n, i, p, bay);
    BayIsHonouredExactly(after, starts, maxBays, i, p, bay);
  }

  const ROOT_A: Bytes := [65]
  const ROOT_B: Bytes := [66]
  const TWO_PORTS: seq<Port> := [Port([], 0), Port([], 1)]
  const TWO_CONTROLLERS: seq<Controller> := [Controller(Sata, ROOT_A, TWO_PORTS), Controller(Sata, ROOT_B, TWO_PORTS)]
  const FOUR_BAYS: seq<Bytes> := [[65, 32, 48], [65, 32, 49], [66, 32, 49], [66, 32, 48]]

  lemma ShortKey(a: byte, b: byte)
    requires !IsSpace(a) && !IsSpace(b) && a < 0x80 && b < 0x80
    ensures TrimSpace([a, 32, b]) == [a, 32, b]
  {
    hide IsSpace, TrimSpace, SpaceAt, SpaceBefore;
    AsciiEnds([a, 32, b]);
    TrimmedIsSame([a, 32, b]);
  }

  lemma TwoBays()
    ensures BayMap([[65, 32, 48], [65, 32, 49]]) == map[[65, 32, 48] := 1, [65, 32, 49] := 2]
  {
    hide BayMap, TrimSpace;
    ShortKey(65, 48);
    ShortKey(65, 49);
    NoBays();
    BayMapNext([], [65, 32, 48]);
    BayMapNext([[65, 32, 48]], [65, 32, 49]);
    assert [] + [[65, 32, 48]] == [[65, 32, 48]];
    assert [[65, 32, 48]] + [[65, 32, 49]] == [[65, 32, 48], [65, 32, 49]];
  }

  lemma FourBays()
    ensures BayMap(FOUR_BAYS) == map[[65, 32, 48] := 1, [65, 32, 49] := 2, [66, 32, 49] := 3, [66, 32, 48] := 4]
    ensures BayMap(Blanked(FOUR_BAYS, 4)) == map[[65, 32, 48] := 1, [65, 32, 49] := 2, [66, 32, 49] := 3]
  {
    hide BayMap, TrimSpace;
    var two := [[65, 32, 48], [65, 32, 49]];
    var three := two + [[66, 32, 49]];
    ShortKey(66, 49);
    ShortKey(66, 48);
    BlankKey();
    TwoBays();
    BayMapNext(two, [66, 32, 49]);
    BayMapNext(three, [66, 32, 48]);
    BayMapNext(three, []);
    assert FOUR_BAYS == three + [[66, 32, 48]];
    assert Blanked(FOUR_BAYS, 4) == three + [[]];
  }

  /** Blanking another controller's bay can still hide a disk: B's start moves into A's window and cuts it short. */
  lemma BlankingCanHideADisk()
    ensures var l := Layout(TWO_CONTROLLERS, BayMap(FOUR_BAYS));
            && IsPlacement(l, [0, 3]) && StartsOk(l, [0, 3]) && IsListed(l, 0, 1, 2)
            && MapsTo(RenderMaps(l, [0, 3], 4), 0, 1, 1)
    ensures var l := Layout(TWO_CONTROLLERS, BayMap(Blanked(FOUR_BAYS, 4)));
            && IsPlacement(l, [0, 1]) && StartsOk(l, [0, 1]) && IsListed(l, 0, 1, 2)
            && !MapsTo(RenderMaps(l, [0, 1], 4), 0, 1, 1)
  {
    hide BayMap, ChosenOf, IsListed, RenderMaps, MapsTo, Blanked, IsPlacement, StartsOk;
    FourBays();
    var l1 := Layout(TWO_CONTROLLERS, BayMap(FOUR_BAYS));
    var l2 := Layout(TWO_CONTROLLERS, BayMap(Blanked(FOUR_BAYS, 4)));
    StartsOfBoth(l1);
    StartsOfBoth(l2);
    SecondPort(l1, 3);
    SecondPort(l2, 1);
  }

  lemma SecondPort(l: Layout, s: nat)
    requires l.cs == TWO_CONTROLLERS && LayoutOk(l) && 0 < s < 256
    requires ChosenOf(l, 0) == Some(0) && ChosenOf(l, 1) == Some(s) && IsListed(l, 0, 1, 2)
    ensures IsPlacement(l, [0, s]) && StartsOk(l, [0, s])
    ensures MapsTo(RenderMaps(l, [0, s], 4), 0, 1, 1) <==> s != 1
  {
    hide ChosenOf, Fits, RenderMaps, MapsTo, IsListed, AnyExposed;
    assert PlacedAt(l, [0, s], 0) && PlacedAt(l, [0, s], 1);
    assert Width(l, 0) == 2;
    ChosenIsExposed(l, 0, 4);
    BayIsHonouredExactly(l, [0, s], 4, 0, 1, 2);
  }

  /** The first of two ports that is listed fixes the start. */
  lemma StartOfTwo(root: Bytes, bay: map<Bytes, nat>)
    requires forall b <- bay :: bay[b] >= 1
    ensures var first, second := PortKey(root, 0), PortKey(root, 1);
            ChosenStart(root, TWO_PORTS, bay)
            == if first in bay then Some(bay[first] - 1)
               else if second !in bay then None
               else if bay[second] < 2 then Some(0)
               else Some(bay[second] - 2)
  {
    hide PortKey;
    var last := [Port([], 1)];
    assert TWO_PORTS[1..] == last && last[1..] == [];
    assert ChosenStart(root, last[1..], bay) == None;
  }

  lemma KeysOfTwo()
    ensures PortKey(ROOT_A, 0) == [65, 32, 48] && PortKey(ROOT_A, 1) == [65, 32, 49]
    ensures PortKey(ROOT_B, 0) == [66, 32, 48] && PortKey(ROOT_B, 1) == [66, 32, 49]
  {
  }

  lemma StartsOfBoth(l: Layout)
    requires l.cs == TWO_CONTROLLERS && LayoutOk(l)
    requires [65, 32, 48] in l.bay && l.bay[[65, 32, 48]] == 1
    requires [65, 32, 49] in l.bay && l.bay[[65, 32, 49]] == 2
    requires [66, 32, 49] in l.bay && l.bay[[66, 32, 49]] == 3
    ensures ChosenOf(l, 0) == Some(0) && IsListed(l, 0, 1, 2)
    ensures ChosenOf(l, 1) == if [66, 32, 48] in l.bay then Some(l.bay[[66, 32, 48]] - 1) else Some(1)
  {
    hide PortKey, ChosenStart;
    KeysOfTwo();
    StartOfTwo(ROOT_A, l.bay);
    StartOfTwo(ROOT_B, l.bay);
    assert l.cs[0].ports[1].index == 1;
  }
}
