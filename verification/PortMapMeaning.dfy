/** What SataPortMap and DiskIdxMap say: which disk index each controller's ports get. */
module PortMapMeaning {
  import opened GoStrings
  import opened PortMap

  // ----- the enumeration order is a stable sort

  lemma {:induction false} MinAtaIsLeast(ports: seq<Port>)
    ensures forall p <- ports :: MinAta(ports) <= AtaNumber(p.name)
    ensures MinAta(ports) == NO_ATA || exists p <- ports :: MinAta(ports) == AtaNumber(p.name)
  {
    hide AtaNumber;
    if ports != [] {
      MinAtaIsLeast(ports[..|ports| - 1]);
      assert ports == ports[..|ports| - 1] + [ports[|ports| - 1]];
    }
  }

  predicate SortedByAta(cs: seq<Controller>) {
    forall i, j | 0 <= i < j < |cs| :: MinAta(cs[i].ports) <= MinAta(cs[j].ports)
  }

  /** The controllers whose lowest ata number is m, in their order. */
  function WithMinAta(cs: seq<Controller>, m: int): seq<Controller> {
    if cs == [] then []
    else WithMinAta(cs[..|cs| - 1], m) + if MinAta(cs[|cs| - 1].ports) == m then [cs[|cs| - 1]] else []
  }

  lemma {:induction false} InsertMembers(sorted: seq<Controller>, c: Controller)
    ensures multiset(InsertByAta(sorted, c)) == multiset(sorted) + multiset{c}
  {
    hide MinAta;
    if sorted != [] && MinAta(sorted[|sorted| - 1].ports) > MinAta(c.ports) {
      InsertMembers(sorted[..|sorted| - 1], c);
      assert sorted == sorted[..|sorted| - 1] + [sorted[|sorted| - 1]];
    }
  }

  lemma {:induction false} InsertKeepsOrder(sorted: seq<Controller>, c: Controller)
    requires SortedByAta(sorted)
    ensures SortedByAta(InsertByAta(sorted, c))
  {
    hide MinAta;
    if sorted != [] && MinAta(sorted[|sorted| - 1].ports) > MinAta(c.ports) {
      var front, last := sorted[..|sorted| - 1], sorted[|sorted| - 1];
      InsertKeepsOrder(front, c);
      InsertMembers(front, c);
      var r := InsertByAta(front, c);
      forall d <- r ensures MinAta(d.ports) <= MinAta(last.ports) {
        assert d in multiset(r);
        assert d == c || d in front;
      }
    }
  }

  lemma {:induction false} InsertIsStable(sorted: seq<Controller>, c: Controller, m: int)
    requires SortedByAta(sorted)
    ensures WithMinAta(InsertByAta(sorted, c), m) == WithMinAta(sorted, m) + if MinAta(c.ports) == m then [c] else []
  {
    hide MinAta;
    if sorted == [] || MinAta(sorted[|sorted| - 1].ports) <= MinAta(c.ports) {
      assert (sorted + [c])[..|sorted|] == sorted;
    } else {
      var front, last := sorted[..|sorted| - 1], sorted[|sorted| - 1];
      InsertIsStable(front, c, m);
      var r := InsertByAta(front, c);
      assert (r + [last])[..|r|] == r;
      assert WithMinAta(front, m) + [] == WithMinAta(front, m);
    }
  }

  lemma SortStep(cs: seq<Controller>)
    requires cs != []
    ensures SortByAta(cs) == InsertByAta(SortByAta(cs[..|cs| - 1]), cs[|cs| - 1])
  {
    hide InsertByAta;
  }

  lemma StableStep(cs: seq<Controller>, m: int)
    requires cs != []
    ensures WithMinAta(cs, m)
            == WithMinAta(cs[..|cs| - 1], m) + if MinAta(cs[|cs| - 1].ports) == m then [cs[|cs| - 1]] else []
  {
    hide MinAta;
  }

  lemma SortNothing(m: int)
    ensures SortByAta([]) == [] && WithMinAta([], m) == []
  {
  }

  /** The order is sorted, a permutation, and keeps the given order among equal ata numbers. */
  lemma {:induction false} SortIsStable(cs: seq<Controller>, m: int)
    ensures SortedByAta(SortByAta(cs))
    ensures multiset(SortByAta(cs)) == multiset(cs)
    ensures WithMinAta(SortByAta(cs), m) == WithMinAta(cs, m)
  {
    hide MinAta, SortByAta, InsertByAta, WithMinAta;
    if cs == [] {
      SortNothing(m);
    } else {
      var front, last := cs[..|cs| - 1], cs[|cs| - 1];
      SortIsStable(front, m);
      SortStep(cs);
      StableStep(cs, m);
      InsertMembers(SortByAta(front), last);
      InsertKeepsOrder(SortByAta(front), last);
      InsertIsStable(SortByAta(front), last, m);
      assert cs == front + [last];
    }
  }

  // ----- every window is bounded

  /** What is taken before controller i lies below the bays and the ports placed so far. */
  lemma {:induction false} TakenIsBelow(l: Layout, starts: seq<int>, bays: nat, i: nat, d: nat)
    requires IsPlacement(l, starts) && (forall k <- l.bay :: l.bay[k] <= bays) && i <= |l.cs|
    requires Taken(l, starts, i, d)
    ensures d < bays + PlacedPorts(l, i, |l.cs|)
    decreases i, 0
  {
    hide ChosenOf, Taken, Fits;
    if i == 0 {
      TakenByChosen(l, starts, bays, d);
    } else {
      TakenNext(l, starts, i - 1, d);
      PlacedPortsNext(l, i - 1, |l.cs|);
      if Taken(l, starts, i - 1, d) {
        TakenIsBelow(l, starts, bays, i - 1, d);
      } else {
        StartIsBelow(l, starts, bays, i - 1);
      }
    }
  }

  lemma TakenByChosen(l: Layout, starts: seq<int>, bays: nat, d: nat)
    requires IsPlacement(l, starts) && (forall k <- l.bay :: l.bay[k] <= bays)
    requires Taken(l, starts, 0, d)
    ensures d < bays + PlacedPorts(l, 0, |l.cs|)
  {
    hide ChosenOf, Fits, PlacedPorts;
    var j: nat :| j < |l.cs| && Holds(l, starts, 0, j, d);
    assert PlacedAt(l, starts, j);
    ChosenIsBelow(l, bays, j);
    PlacedPortsHave(l, 0, |l.cs|, j);
  }

  /** First fit ends at once above everything taken. */
  lemma StartIsBelow(l: Layout, starts: seq<int>, bays: nat, i: nat)
    requires IsPlacement(l, starts) && (forall k <- l.bay :: l.bay[k] <= bays) && i < |l.cs|
    ensures 0 <= starts[i] <= bays + PlacedPorts(l, i, |l.cs|)
    decreases i, 1
  {
    hide ChosenOf, Taken, PlacedPorts;
    assert PlacedAt(l, starts, i);
    if ChosenOf(l, i).Some? {
      ChosenIsBelow(l, bays, i);
    } else {
      var limit := bays + PlacedPorts(l, i, |l.cs|);
      forall d: nat | limit <= d ensures !Taken(l, starts, i, d) {
        if Taken(l, starts, i, d) {
          TakenIsBelow(l, starts, bays, i, d);
        }
      }
      assert Fits(l, starts, i, limit);
    }
  }

  /** Every start is at most the number of bay entries plus the number of ports. */
  lemma StartsAreBounded(cs: seq<Controller>, bayOrder: seq<Bytes>, starts: seq<int>, i: nat)
    requires var l := LayoutFor(cs, bayOrder); IsPlacement(l, starts) && i < |l.cs|
    ensures 0 <= starts[i] <= |bayOrder| + TotalPorts(LayoutFor(cs, bayOrder).cs)
  {
    hide SortByAta, PlacedAt;
    var l := LayoutFor(cs, bayOrder);
    StartIsBelow(l, starts, |bayOrder|, i);
    PlacedPortsAtMost(l, i, |l.cs|);
    assert l.cs[..|l.cs|] == l.cs;
  }

  /** So on a machine with few enough bays and ports every start fits in two hex digits. */
  lemma SmallMachineInByte(cs: seq<Controller>, bayOrder: seq<Bytes>, starts: seq<int>)
    requires IsPlacement(LayoutFor(cs, bayOrder), starts)
    requires |bayOrder| + TotalPorts(LayoutFor(cs, bayOrder).cs) < 256
    ensures StartsOk(LayoutFor(cs, bayOrder), starts) && InByte(starts)
  {
    hide LayoutFor, PlacedAt;
    forall i: nat | i < |starts| ensures 0 <= starts[i] < 256 {
      StartsAreBounded(cs, bayOrder, starts, i);
    }
  }

  lemma {:induction false} PlacementIsUnique(l: Layout, a: seq<int>, b: seq<int>, k: nat)
    requires IsPlacement(l, a) && IsPlacement(l, b) && k <= |l.cs|
    ensures a[..k] == b[..k]
  {
    hide ChosenOf, Fits;
    if k > 0 {
      var i := k - 1;
      PlacementIsUnique(l, a, b, i);
      assert PlacedAt(l, a, i) && PlacedAt(l, b, i);
      forall j: nat | j < |l.cs| && (ChosenOf(l, j).Some? || j < i) ensures a[j] == b[j] {
        assert PlacedAt(l, a, j) && PlacedAt(l, b, j);
        assert j < i ==> a[..i][j] == b[..i][j];
      }
      if ChosenOf(l, i).None? {
        if a[i] < b[i] {
          FitsAgrees(l, a, b, i, a[i]);
        } else if b[i] < a[i] {
          FitsAgrees(l, b, a, i, b[i]);
        }
      }
    }
  }

  // ----- exposed windows

  lemma {:induction false} CappedIsLargest(l: Layout, starts: seq<int>, i: nat, n: nat, k: nat, m: nat)
    requires LayoutOk(l) && |starts| == |l.cs| && i < |l.cs| && k <= |l.cs|
    ensures m <= Capped(l, starts, i, n, k) <==>
              && m <= n
              && forall j: nat | j < k && ChosenOf(l, j).Some? && starts[j] > starts[i] ::
                   starts[i] + m <= starts[j]
  {
    hide ChosenOf;
    if k > 0 {
      CappedIsLargest(l, starts, i, n, k - 1, m);
    }
  }

  /** No start chosen for another controller lies in (starts[i], starts[i] + m). */
  predicate NoChosenInside(l: Layout, starts: seq<int>, i: nat, m: nat)
    requires LayoutOk(l) && |starts| == |l.cs| && i < |l.cs|
  {
    forall j: nat | j < |l.cs| && ChosenOf(l, j).Some? && starts[j] > starts[i] :: starts[i] + m <= starts[j]
  }

  /** The exposed count is the largest that fits the digit, the ports, the bays and the later chosen starts. */
  lemma ExposedIsLargest(l: Layout, starts: seq<int>, maxBays: nat, i: nat, m: nat)
    requires LayoutOk(l) && StartsOk(l, starts) && i < |l.cs| && m > 0
    ensures m <= Exposed(l, starts, maxBays, i) <==>
              m <= Width(l, i) && m <= 9 && starts[i] + m <= maxBays && NoChosenInside(l, starts, i, m)
  {
    hide ChosenOf;
    CappedIsLargest(l, starts, i, WithinBays(Width(l, i), starts[i], maxBays), |l.cs|, m);
  }

  /** Two exposed windows meet exactly when both starts were chosen and are the same. */
  lemma ExposedOverlap(l: Layout, starts: seq<int>, maxBays: nat, i: nat, j: nat)
    requires IsPlacement(l, starts) && StartsOk(l, starts) && i < j < |l.cs|
    ensures (exists d: nat :: InWindow(starts[i], Exposed(l, starts, maxBays, i), d)
                           && InWindow(starts[j], Exposed(l, starts, maxBays, j), d))
      <==> ChosenOf(l, i).Some? && ChosenOf(l, j) == ChosenOf(l, i) && ChosenOf(l, i).value < maxBays
  {
    hide ChosenOf, Exposed, Fits, NoChosenInside;
    var n, m := Exposed(l, starts, maxBays, i), Exposed(l, starts, maxBays, j);
    assert PlacedAt(l, starts, i) && PlacedAt(l, starts, j);
    if ChosenOf(l, i).Some? && ChosenOf(l, j) == ChosenOf(l, i) && ChosenOf(l, i).value < maxBays {
      ChosenExposes(l, starts, maxBays, i);
      ChosenExposes(l, starts, maxBays, j);
      assert InWindow(starts[i], n, starts[i]) && InWindow(starts[j], m, starts[i]);
    }
    forall d: nat | InWindow(starts[i], n, d) && InWindow(starts[j], m, d)
      ensures ChosenOf(l, i).Some? && ChosenOf(l, j) == ChosenOf(l, i) && ChosenOf(l, i).value < maxBays
    {
      ExposedIsLargest(l, starts, maxBays, i, n);
      ExposedIsLargest(l, starts, maxBays, j, m);
      if ChosenOf(l, i).None? {
        if ChosenOf(l, j).Some? {
          UnchosenAvoids(l, starts, i, j, d);
        } else {
          UnchosenAvoids(l, starts, j, i, d);
        }
      } else if ChosenOf(l, j).None? {
        UnchosenAvoids(l, starts, j, i, d);
      } else {
        NoMeetChosen(l, starts, i, j, n);
        NoMeetChosen(l, starts, j, i, m);
      }
    }
  }

  lemma NoMeetChosen(l: Layout, starts: seq<int>, i: nat, j: nat, n: nat)
    requires LayoutOk(l) && |starts| == |l.cs| && i < |l.cs| && j < |l.cs|
    requires NoChosenInside(l, starts, i, n) && ChosenOf(l, j).Some?
    ensures starts[j] > starts[i] ==> starts[i] + n <= starts[j]
  {
    hide ChosenOf;
  }

  /** First fit keeps clear of every chosen window and of every window placed before. */
  lemma UnchosenAvoids(l: Layout, starts: seq<int>, i: nat, j: nat, d: nat)
    requires IsPlacement(l, starts) && i < |l.cs| && j < |l.cs|
    requires ChosenOf(l, i).None? && (ChosenOf(l, j).Some? || j < i)
    requires InWindow(starts[i], Width(l, i), d)
    ensures !InWindow(starts[j], Width(l, j), d)
  {
    hide ChosenOf;
    assert PlacedAt(l, starts, i);
    assert !Taken(l, starts, i, d);
    assert !Holds(l, starts, i, j, d);
  }

  lemma {:induction false} ChosenHasPorts(root: Bytes, ports: seq<Port>, bay: map<Bytes, nat>)
    requires (forall k <- bay :: bay[k] >= 1) && ChosenStart(root, ports, bay).Some?
    ensures ports != []
  {
  }

  lemma ChosenExposes(l: Layout, starts: seq<int>, maxBays: nat, i: nat)
    requires IsPlacement(l, starts) && StartsOk(l, starts) && i < |l.cs|
    requires ChosenOf(l, i).Some? && starts[i] < maxBays
    ensures Exposed(l, starts, maxBays, i) > 0
  {
    ChosenHasPorts(l.cs[i].pcieRoot, l.cs[i].ports, l.bay);
    hide ChosenOf, Exposed;
    ExposedIsLargest(l, starts, maxBays, i, 1);
  }

  // ----- reading the two strings

  function HexValue(b: byte): nat { if b >= 97 then (b as int - 87) % 16 else (b as int - 48) % 16 }

  /** The disk index of controller i's first port. */
  function StartAt(m: Maps, i: nat): nat
    requires 2 * i + 2 <= |m.idxmap|
  {
    16 * HexValue(m.idxmap[2 * i]) + HexValue(m.idxmap[2 * i + 1])
  }

  /** How many of controller i's ports are used. */
  function CountAt(m: Maps, i: nat): nat
    requires i < |m.portmap| && m.portmap[i] >= ZERO
  {
    (m.portmap[i] - ZERO) as int
  }

  /** One digit and two hex digits per controller, none wasted at either end. */
  predicate Aligned(m: Maps) {
    && m.portmap != [] && |m.idxmap| == 2 * |m.portmap| && AllDigits(m.portmap)
    && m.portmap[0] != ZERO && m.portmap[|m.portmap| - 1] != ZERO
  }

  lemma HexReadsBack(n: nat)
    requires n < 256
    ensures 16 * HexValue(HexDigit(n / 16)) + HexValue(HexDigit(n % 16)) == n
  {
    assert HexValue(HexDigit(n / 16)) == n / 16;
    assert HexValue(HexDigit(n % 16)) == n % 16;
  }

  /** The number of controllers that keep a digit: up to the last one with an exposed port. */
  function Kept(l: Layout, starts: seq<int>, maxBays: nat, k: nat): (n: nat)
    requires LayoutOk(l) && |starts| == |l.cs| && k <= |l.cs|
    ensures n <= k
  {
    if k > 0 && Exposed(l, starts, maxBays, k - 1) == 0 then Kept(l, starts, maxBays, k - 1) else k
  }

  lemma {:induction false} KeptIsLast(l: Layout, starts: seq<int>, maxBays: nat, k: nat)
    requires LayoutOk(l) && |starts| == |l.cs| && k <= |l.cs|
    ensures var n := Kept(l, starts, maxBays, k);
            && (forall i: nat | n <= i < k :: Exposed(l, starts, maxBays, i) == 0)
            && (n > 0 ==> Exposed(l, starts, maxBays, n - 1) > 0)
  {
    hide Exposed;
    if k > 0 && Exposed(l, starts, maxBays, k - 1) == 0 {
      KeptIsLast(l, starts, maxBays, k - 1);
    }
  }

  predicate InByte(starts: seq<int>) { forall i | 0 <= i < |starts| :: 0 <= starts[i] < 256 }

  lemma {:induction false} HexSize(n: nat)
    ensures n >= 16 ==> |Hex(n)| >= 2
    ensures n >= 256 ==> |Hex(n)| >= 3
  {
    hide HexDigit;
    if n >= 16 {
      HexSize(n / 16);
      HexStep(n);
    }
  }

  lemma HexStep(n: nat)
    requires n >= 16
    ensures |Hex(n)| == |Hex(n / 16)| + 1
  {
    hide HexDigit;
  }

  lemma Hex2Size(n: nat)
    ensures |Hex2(n)| == 2 <==> n < 256
  {
    hide Hex, HexDigit;
    HexSize(n);
  }

  lemma {:induction false} PortDigitAt(l: Layout, starts: seq<int>, maxBays: nat, k: nat, i: nat)
    requires LayoutOk(l) && StartsOk(l, starts) && i < k <= |l.cs|
    ensures PortDigits(l, starts, maxBays, k)[i] == (48 + Exposed(l, starts, maxBays, i)) as byte
    ensures PortDigits(l, starts, maxBays, k)[..k - 1] == PortDigits(l, starts, maxBays, k - 1)
  {
    hide Exposed;
    if i < k - 1 {
      PortDigitAt(l, starts, maxBays, k - 1, i);
    }
  }

  lemma StartDigitsStep(l: Layout, starts: seq<int>, k: nat)
    requires LayoutOk(l) && StartsOk(l, starts) && 0 < k <= |l.cs|
    ensures StartDigits(l, starts, k) == StartDigits(l, starts, k - 1) + Hex2(starts[k - 1])
  {
    hide Hex2;
  }

  /** Two digits for each start below 256, three or more for another. */
  lemma {:induction false} StartDigitsGrow(l: Layout, starts: seq<int>, i: nat, k: nat)
    requires LayoutOk(l) && StartsOk(l, starts) && i <= k <= |l.cs|
    ensures StartDigits(l, starts, i) <= StartDigits(l, starts, k)
    ensures |StartDigits(l, starts, i)| + 2 * (k - i) <= |StartDigits(l, starts, k)|
    ensures |StartDigits(l, starts, i)| + 2 * (k - i) == |StartDigits(l, starts, k)|
            <==> forall j | i <= j < k :: starts[j] < 256
    decreases k
  {
    hide Hex2, StartDigits;
    if i < k {
      StartDigitsGrow(l, starts, i, k - 1);
      StartDigitsStep(l, starts, k);
      Hex2Size(starts[k - 1]);
    }
  }

  lemma NoDigits(l: Layout, starts: seq<int>)
    requires LayoutOk(l) && StartsOk(l, starts)
    ensures StartDigits(l, starts, 0) == []
  {
  }

  /** While the starts so far fit in two digits, the next one stands at its place. */
  lemma StartDigitsAt(l: Layout, starts: seq<int>, i: nat, text: Bytes)
    requires LayoutOk(l) && StartsOk(l, starts) && i < |l.cs| && InByte(starts[..i + 1])
    requires StartDigits(l, starts, i + 1) <= text
    ensures |text| >= 2 * i + 2
    ensures text[2 * i] == HexDigit(starts[i] / 16) && text[2 * i + 1] == HexDigit(starts[i] % 16)
  {
    hide Hex2, StartDigits, HexDigit;
    assert forall j | 0 <= j <= i :: starts[j] == starts[..i + 1][j];
    NoDigits(l, starts);
    StartDigitsGrow(l, starts, 0, i);
    StartDigitsStep(l, starts, i + 1);
    var digits := StartDigits(l, starts, i + 1);
    assert digits[2 * i] == Hex2(starts[i])[0] && digits[2 * i + 1] == Hex2(starts[i])[1];
  }

  lemma {:induction false} TrimIsKept(l: Layout, starts: seq<int>, maxBays: nat, k: nat, idxmap: Bytes)
    requires LayoutOk(l) && StartsOk(l, starts) && k <= |l.cs| && |idxmap| >= 2 * k
    ensures var n := Kept(l, starts, maxBays, k);
            TrimZeros(Maps(PortDigits(l, starts, maxBays, k), idxmap))
            == Maps(PortDigits(l, starts, maxBays, n), idxmap[..|idxmap| - 2 * (k - n)])
    decreases k
  {
    hide Exposed, PortDigits;
    if k > 0 {
      PortDigitAt(l, starts, maxBays, k, k - 1);
      if Exposed(l, starts, maxBays, k - 1) == 0 {
        var cut := idxmap[..|idxmap| - 2];
        TrimIsKept(l, starts, maxBays, k - 1, cut);
        var n := Kept(l, starts, maxBays, k - 1);
        assert cut[..|cut| - 2 * (k - 1 - n)] == idxmap[..|idxmap| - 2 * (k - n)];
      }
    }
  }

  /** The count controller i is given: its exposed ports, or the one throwaway port of a leading zero. */
  function GivenCount(l: Layout, starts: seq<int>, maxBays: nat, i: nat): nat
    requires LayoutOk(l) && |starts| == |l.cs| && i < |l.cs|
  {
    var n := Exposed(l, starts, maxBays, i);
    if i == 0 && n == 0 then 1 else n
  }

  /** What is written for a machine with an exposed port, before the leading zero is put right. */
  lemma KeptText(l: Layout, starts: seq<int>, maxBays: nat) returns (idxmap: Bytes)
    requires LayoutOk(l) && StartsOk(l, starts)
    ensures var k := Kept(l, starts, maxBays, |l.cs|);
            && RenderMaps(l, starts, maxBays) == FixLeadingZero(Maps(PortDigits(l, starts, maxBays, k), idxmap))
            && StartDigits(l, starts, k) <= idxmap
            && (|idxmap| == 2 * k <==> InByte(starts))
  {
    hide Exposed, Hex2, StartDigits, PortDigits, TrimZeros, FixLeadingZero;
    var n, k := |l.cs|, Kept(l, starts, maxBays, |l.cs|);
    var all := StartDigits(l, starts, n);
    NoDigits(l, starts);
    StartDigitsGrow(l, starts, 0, n);
    StartDigitsGrow(l, starts, k, n);
    TrimIsKept(l, starts, maxBays, n, all);
    idxmap := all[..|all| - 2 * (n - k)];
    assert StartDigits(l, starts, k) <= idxmap;
  }

  /** Position i is controller i in enumeration order, with its own start as long as no start up to it needs more
      than two digits; the strings are aligned exactly when none does or when no port is exposed. */
  lemma MapsMeaning(l: Layout, starts: seq<int>, maxBays: nat)
    requires LayoutOk(l) && StartsOk(l, starts)
    ensures var m, k := RenderMaps(l, starts, maxBays), Kept(l, starts, maxBays, |l.cs|);
            && (Aligned(m) <==> k == 0 || InByte(starts))
            && (k == 0 ==> m == Maps([ONE], [ZERO, ZERO]))
            && (k > 0 ==> |m.portmap| == k && 2 * k <= |m.idxmap| && forall i: nat | i < k ::
                  && m.portmap[i] >= ZERO && CountAt(m, i) == GivenCount(l, starts, maxBays, i)
                  && (InByte(starts[..i + 1]) ==> StartAt(m, i) == starts[i]))
  {
    hide Exposed, HexDigit, Hex2, HexValue, StartDigits, PortDigits, InByte, Aligned;
    var k, m := Kept(l, starts, maxBays, |l.cs|), RenderMaps(l, starts, maxBays);
    var idxmap := KeptText(l, starts, maxBays);
    KeptIsLast(l, starts, maxBays, |l.cs|);
    forall i: nat | i < k ensures m.portmap[i] == (48 + GivenCount(l, starts, maxBays, i)) as byte {
      PortReads(l, starts, maxBays, k, i, idxmap);
    }
    StartDigitsGrow(l, starts, 0, k);
    forall i: nat | i < k && InByte(starts[..i + 1]) ensures StartAt(m, i) == starts[i] {
      StartDigitsGrow(l, starts, i + 1, k);
      StartReads(l, starts, i, m);
    }
    AlignedIsSized(m);
  }

  lemma PortReads(l: Layout, starts: seq<int>, maxBays: nat, k: nat, i: nat, idxmap: Bytes)
    requires LayoutOk(l) && StartsOk(l, starts) && i < k <= |l.cs|
    ensures var m := FixLeadingZero(Maps(PortDigits(l, starts, maxBays, k), idxmap));
            |m.portmap| == k && m.portmap[i] == (48 + GivenCount(l, starts, maxBays, i)) as byte
  {
    hide Exposed, PortDigits;
    PortDigitAt(l, starts, maxBays, k, i);
    PortDigitAt(l, starts, maxBays, k, 0);
  }

  lemma StartReads(l: Layout, starts: seq<int>, i: nat, m: Maps)
    requires LayoutOk(l) && StartsOk(l, starts) && i < |l.cs| && InByte(starts[..i + 1])
    requires StartDigits(l, starts, i + 1) <= m.idxmap && 2 * i + 2 <= |m.idxmap|
    ensures StartAt(m, i) == starts[i]
  {
    hide HexDigit, HexValue, StartDigits, InByte;
    StartDigitsAt(l, starts, i, m.idxmap);
    StartInByte(starts, i);
    HexReadsBack(starts[i]);
  }

  lemma StartInByte(starts: seq<int>, i: nat)
    requires i < |starts| && InByte(starts[..i + 1])
    ensures 0 <= starts[i] < 256
  {
    assert starts[..i + 1][i] == starts[i];
  }

  lemma AlignedIsSized(m: Maps)
    requires m.portmap != [] && m.portmap[0] != ZERO && m.portmap[|m.portmap| - 1] != ZERO
    requires forall i | 0 <= i < |m.portmap| :: 48 <= m.portmap[i] <= 57
    ensures Aligned(m) <==> |m.idxmap| == 2 * |m.portmap|
  {
  }

  // ----- no disk index belongs to two controllers

  /** Controller i's port at position p is given disk index d. */
  predicate MapsTo(m: Maps, i: nat, p: nat, d: nat) {
    i < |m.portmap| && 2 * i + 2 <= |m.idxmap| && m.portmap[i] >= ZERO && p < CountAt(m, i) && d == StartAt(m, i) + p
  }

  ghost predicate NoIndexTwice(m: Maps) {
    forall i, j, p, q, d | MapsTo(m, i, p, d) && MapsTo(m, j, q, d) :: i == j
  }

  /** No two controllers have the same chosen start inside the bays. */
  ghost predicate ChosenStartsDiffer(l: Layout, maxBays: nat)
    requires LayoutOk(l)
  {
    forall i: nat, j: nat | i < j < |l.cs| && ChosenOf(l, i).Some? && ChosenOf(l, j).Some? ::
      ChosenOf(l, i) == ChosenOf(l, j) ==> ChosenOf(l, i).value >= maxBays
  }

  /** A controller with ports whose chosen start is below b, or whose window would be clear of the chosen ones at 0. */
  ghost predicate FreeBelow(l: Layout, i: nat, b: nat)
    requires LayoutOk(l) && i < |l.cs|
  {
    && Width(l, i) > 0
    && if ChosenOf(l, i).Some? then ChosenOf(l, i).value < b
       else forall d: nat, j: nat | d < Width(l, i) && j < |l.cs| :: !ChosenHolds(l, j, d)
  }

  /** The throwaway port of a leading controller without ports falls on another controller's first index. */
  ghost predicate HeadCollides(l: Layout)
    requires LayoutOk(l)
  {
    |l.cs| > 0 && Width(l, 0) == 0 && exists i: nat | i < |l.cs| :: FreeBelow(l, i, 1)
  }

  predicate StartsBelow(l: Layout, starts: seq<int>, i: nat, b: nat)
    requires |starts| == |l.cs| && i < |l.cs|
  {
    Width(l, i) > 0 && starts[i] < b
  }

  /** What keeps controller i from a start that does not fit: a chosen window, or one placed before. */
  lemma Blocker(l: Layout, starts: seq<int>, i: nat, d: nat) returns (j: nat)
    requires IsPlacement(l, starts) && i < |l.cs| && Taken(l, starts, i, d)
    ensures j < |l.cs| && starts[j] <= d < starts[j] + Width(l, j)
    ensures ChosenHolds(l, j, d) || (ChosenOf(l, j).None? && j < i)
  {
    hide ChosenOf, Fits;
    j :| j < |l.cs| && Holds(l, starts, i, j, d);
    assert PlacedAt(l, starts, j);
  }

  /** Going down from start to start, past no chosen window, ends at 0. */
  lemma {:induction false} DownToZero(l: Layout, starts: seq<int>, i: nat) returns (k: nat)
    requires IsPlacement(l, starts) && i < |l.cs| && ChosenOf(l, i).None? && Width(l, i) > 0
    requires forall d: nat, j: nat | d < starts[i] && j < |l.cs| :: !ChosenHolds(l, j, d)
    ensures k < |l.cs| && StartsBelow(l, starts, k, 1)
    decreases i
  {
    hide ChosenOf, Taken, ChosenHolds;
    k := i;
    assert PlacedAt(l, starts, i);
    if starts[i] > 0 {
      var s := starts[i] - 1;
      assert !Fits(l, starts, i, s);
      assert Taken(l, starts, i, s);
      var j := Blocker(l, starts, i, s);
      k := DownToZero(l, starts, j);
    }
  }

  /** A window that the chosen ones leave free from 0 means that some controller does start at 0. */
  lemma FreeMeansZero(l: Layout, starts: seq<int>, i: nat) returns (k: nat)
    requires IsPlacement(l, starts) && i < |l.cs| && ChosenOf(l, i).None? && FreeBelow(l, i, 1)
    ensures k < |l.cs| && StartsBelow(l, starts, k, 1)
  {
    hide ChosenOf, Taken, ChosenHolds;
    k := i;
    assert PlacedAt(l, starts, i);
    if starts[i] > 0 {
      assert !Fits(l, starts, i, 0);
      var d: nat :| d < Width(l, i) && Taken(l, starts, i, d);
      var j := Blocker(l, starts, i, d);
      k := DownToZero(l, starts, j);
    }
  }

  lemma LowMeansFree(l: Layout, starts: seq<int>, i: nat, b: nat) returns (k: nat)
    requires IsPlacement(l, starts) && i < |l.cs| && StartsBelow(l, starts, i, b)
    ensures k < |l.cs| && FreeBelow(l, k, b)
  {
    hide ChosenOf, Fits;
    k := i;
    assert PlacedAt(l, starts, i);
    if ChosenOf(l, i).None? && !FreeBelow(l, i, b) {
      var d: nat, j: nat :| d < Width(l, i) && j < |l.cs| && ChosenHolds(l, j, d);
      assert PlacedAt(l, starts, j);
      if starts[j] >= b {
        UnchosenAvoids(l, starts, i, j, d);
      }
      k := j;
    }
  }

  /** Whether any controller with ports starts below b shows in the chosen bays alone. */
  lemma LowestStart(l: Layout, starts: seq<int>, b: nat)
    requires IsPlacement(l, starts) && b > 0
    ensures (exists i: nat | i < |l.cs| :: StartsBelow(l, starts, i, b))
            <==> exists i: nat | i < |l.cs| :: FreeBelow(l, i, b)
  {
    hide ChosenOf, FreeBelow, StartsBelow;
    if i: nat :| i < |l.cs| && StartsBelow(l, starts, i, b) {
      var k := LowMeansFree(l, starts, i, b);
    }
    if i: nat :| i < |l.cs| && FreeBelow(l, i, b) {
      var k := FreeMeansLow(l, starts, i, b);
    }
  }

  lemma FreeMeansLow(l: Layout, starts: seq<int>, i: nat, b: nat) returns (k: nat)
    requires IsPlacement(l, starts) && b > 0 && i < |l.cs| && FreeBelow(l, i, b)
    ensures k < |l.cs| && StartsBelow(l, starts, k, b)
  {
    hide ChosenOf, Fits;
    k := i;
    assert PlacedAt(l, starts, i);
    if ChosenOf(l, i).None? {
      k := FreeMeansZero(l, starts, i);
    }
  }

  /** A leading zero is either past the bays or a controller without ports, placed at 0. */
  lemma LeadingZero(l: Layout, starts: seq<int>, maxBays: nat)
    requires IsPlacement(l, starts) && StartsOk(l, starts) && |l.cs| > 0 && Exposed(l, starts, maxBays, 0) == 0
    ensures starts[0] >= maxBays || (Width(l, 0) == 0 && starts[0] == 0)
  {
    if ChosenOf(l, 0).Some? && starts[0] < maxBays {
      ChosenExposes(l, starts, maxBays, 0);
    }
    hide ChosenOf, Exposed;
    assert PlacedAt(l, starts, 0);
    if ChosenOf(l, 0).None? && Width(l, 0) == 0 {
      assert Fits(l, starts, 0, 0);
    }
    if ChosenOf(l, 0).None? && Width(l, 0) > 0 {
      ExposedIsLargest(l, starts, maxBays, 0, 1);
      assert NoChosenInside(l, starts, 0, 1);
    }
  }

  lemma ExposedPositive(l: Layout, starts: seq<int>, maxBays: nat, i: nat)
    requires LayoutOk(l) && StartsOk(l, starts) && i < |l.cs|
    ensures Exposed(l, starts, maxBays, i) > 0 <==> Width(l, i) > 0 && starts[i] < maxBays
  {
    hide ChosenOf;
    ExposedIsLargest(l, starts, maxBays, i, 1);
  }

  /** Every exposed index is below the bay count, but for a leading throwaway port. */
  lemma ExposedBelowBays(l: Layout, starts: seq<int>, maxBays: nat, i: nat, p: nat, d: nat)
    requires IsPlacement(l, starts) && StartsOk(l, starts) && InByte(starts) && maxBays > 0
    requires MapsTo(RenderMaps(l, starts, maxBays), i, p, d)
    ensures d < maxBays || (i == 0 && p == 0 && Exposed(l, starts, maxBays, 0) == 0)
  {
    hide Exposed, RenderMaps, ChosenOf;
    MapsMeaning(l, starts, maxBays);
    if Kept(l, starts, maxBays, |l.cs|) > 0 {
      ExposedIsLargest(l, starts, maxBays, i, p + 1);
    }
  }

  lemma GivenTo(l: Layout, starts: seq<int>, maxBays: nat, i: nat, p: nat, d: nat)
    requires LayoutOk(l) && StartsOk(l, starts) && InByte(starts)
    requires Kept(l, starts, maxBays, |l.cs|) > 0
    ensures MapsTo(RenderMaps(l, starts, maxBays), i, p, d) <==>
              i < Kept(l, starts, maxBays, |l.cs|) && p < GivenCount(l, starts, maxBays, i) && d == starts[i] + p
  {
    hide Exposed, RenderMaps, ChosenOf, StartAt, CountAt;
    MapsMeaning(l, starts, maxBays);
  }

  /** The decoded map gives no index twice, exactly when chosen starts differ and the head does not collide. */
  lemma NoIndexTwiceExactly(l: Layout, starts: seq<int>, maxBays: nat)
    requires IsPlacement(l, starts) && StartsOk(l, starts) && InByte(starts) && maxBays > 0
    ensures NoIndexTwice(RenderMaps(l, starts, maxBays)) <==> ChosenStartsDiffer(l, maxBays) && !HeadCollides(l)
  {
    hide Exposed, RenderMaps, ChosenOf, MapsTo, StartAt, CountAt, PlacedAt;
    if Kept(l, starts, maxBays, |l.cs|) == 0 {
      NothingKept(l, starts, maxBays);
    } else {
      var m := RenderMaps(l, starts, maxBays);
      if ChosenStartsDiffer(l, maxBays) && !HeadCollides(l) {
        forall i: nat, j: nat, p: nat, q: nat, d: nat | MapsTo(m, i, p, d) && MapsTo(m, j, q, d) ensures i == j {
          GivenTo(l, starts, maxBays, i, p, d);
          GivenTo(l, starts, maxBays, j, q, d);
          if i < j {
            IndexOnce(l, starts, maxBays, i, p, j, q, d);
          } else if j < i {
            IndexOnce(l, starts, maxBays, j, q, i, p, d);
          }
        }
      }
      if !ChosenStartsDiffer(l, maxBays) {
        SharedStartMeets(l, starts, maxBays);
      }
      if HeadCollides(l) {
        HeadMeets(l, starts, maxBays);
      }
    }
  }

  lemma NothingKept(l: Layout, starts: seq<int>, maxBays: nat)
    requires IsPlacement(l, starts) && StartsOk(l, starts) && InByte(starts) && maxBays > 0
    requires Kept(l, starts, maxBays, |l.cs|) == 0
    ensures NoIndexTwice(RenderMaps(l, starts, maxBays)) && ChosenStartsDiffer(l, maxBays) && !HeadCollides(l)
  {
    hide Exposed, RenderMaps, ChosenOf, StartAt, CountAt, FreeBelow;
    MapsMeaning(l, starts, maxBays);
    KeptIsLast(l, starts, maxBays, |l.cs|);
    LowestStart(l, starts, 1);
    forall i: nat | i < |l.cs| ensures !StartsBelow(l, starts, i, maxBays) && !StartsBelow(l, starts, i, 1) {
      ExposedPositive(l, starts, maxBays, i);
    }
    forall i: nat | i < |l.cs| && ChosenOf(l, i).Some? ensures ChosenOf(l, i).value >= maxBays {
      assert PlacedAt(l, starts, i);
      if starts[i] < maxBays {
        ChosenExposes(l, starts, maxBays, i);
      }
    }
  }

  lemma IndexOnce(l: Layout, starts: seq<int>, maxBays: nat, i: nat, p: nat, j: nat, q: nat, d: nat)
    requires IsPlacement(l, starts) && StartsOk(l, starts) && i < j < |l.cs| && maxBays > 0
    requires p < GivenCount(l, starts, maxBays, i) && d == starts[i] + p
    requires q < GivenCount(l, starts, maxBays, j) && d == starts[j] + q
    ensures !ChosenStartsDiffer(l, maxBays) || HeadCollides(l)
  {
    hide Exposed, ChosenOf, PlacedAt, FreeBelow;
    ExposedPositive(l, starts, maxBays, j);
    if Exposed(l, starts, maxBays, i) == 0 {
      LowestStart(l, starts, 1);
      LeadingZero(l, starts, maxBays);
      ExposedIsLargest(l, starts, maxBays, j, q + 1);
      assert StartsBelow(l, starts, j, 1);
    } else {
      ExposedOverlap(l, starts, maxBays, i, j);
      assert InWindow(starts[i], Exposed(l, starts, maxBays, i), d);
      assert InWindow(starts[j], Exposed(l, starts, maxBays, j), d);
    }
  }

  lemma KeptCovers(l: Layout, starts: seq<int>, maxBays: nat, i: nat)
    requires LayoutOk(l) && |starts| == |l.cs| && i < |l.cs| && Exposed(l, starts, maxBays, i) > 0
    ensures i < Kept(l, starts, maxBays, |l.cs|)
  {
    hide Exposed;
    KeptIsLast(l, starts, maxBays, |l.cs|);
  }

  lemma SharedStartMeets(l: Layout, starts: seq<int>, maxBays: nat)
    requires IsPlacement(l, starts) && StartsOk(l, starts) && InByte(starts)
    requires !ChosenStartsDiffer(l, maxBays)
    ensures !NoIndexTwice(RenderMaps(l, starts, maxBays))
  {
    hide Exposed, RenderMaps, ChosenOf, MapsTo;
    var m := RenderMaps(l, starts, maxBays);
    var i: nat, j: nat :| i < j < |l.cs| && ChosenOf(l, i).Some? && ChosenOf(l, j) == ChosenOf(l, i)
                          && ChosenOf(l, i).value < maxBays;
    assert PlacedAt(l, starts, i) && PlacedAt(l, starts, j);
    ChosenExposes(l, starts, maxBays, i);
    ChosenExposes(l, starts, maxBays, j);
    KeptCovers(l, starts, maxBays, i);
    KeptCovers(l, starts, maxBays, j);
    GivenTo(l, starts, maxBays, i, 0, starts[i]);
    GivenTo(l, starts, maxBays, j, 0, starts[i]);
    assert MapsTo(m, i, 0, starts[i]) && MapsTo(m, j, 0, starts[i]);
  }

  lemma HeadMeets(l: Layout, starts: seq<int>, maxBays: nat)
    requires IsPlacement(l, starts) && StartsOk(l, starts) && InByte(starts) && maxBays > 0
    requires HeadCollides(l)
    ensures !NoIndexTwice(RenderMaps(l, starts, maxBays))
  {
    hide Exposed, RenderMaps, ChosenOf, MapsTo, FreeBelow;
    var m := RenderMaps(l, starts, maxBays);
    LowestStart(l, starts, 1);
    var i: nat :| i < |l.cs| && StartsBelow(l, starts, i, 1);
    ExposedPositive(l, starts, maxBays, 0);
    ExposedPositive(l, starts, maxBays, i);
    assert starts[0] == 0 by { PortlessAtZero(l, starts, 0); }
    KeptCovers(l, starts, maxBays, i);
    GivenTo(l, starts, maxBays, 0, 0, 0);
    GivenTo(l, starts, maxBays, i, 0, 0);
    assert MapsTo(m, 0, 0, 0) && MapsTo(m, i, 0, 0);
  }

  lemma PortlessAtZero(l: Layout, starts: seq<int>, i: nat)
    requires IsPlacement(l, starts) && i < |l.cs| && Width(l, i) == 0
    ensures starts[i] == 0
  {
    if ChosenOf(l, i).Some? {
      ChosenHasPorts(l.cs[i].pcieRoot, l.cs[i].ports, l.bay);
    }
    hide ChosenOf;
    assert PlacedAt(l, starts, i);
    assert Fits(l, starts, i, 0);
  }

  // ----- machines without an exposed port

  /** Some controller with ports starts inside the bays. */
  ghost predicate AnyExposed(l: Layout, maxBays: nat)
    requires LayoutOk(l)
  {
    exists i: nat | i < |l.cs| :: FreeBelow(l, i, maxBays)
  }

  /** Whether any port is exposed shows in the chosen bays alone. */
  lemma AnyExposedIsKept(l: Layout, starts: seq<int>, maxBays: nat)
    requires IsPlacement(l, starts) && StartsOk(l, starts) && maxBays > 0
    ensures AnyExposed(l, maxBays) <==> Kept(l, starts, maxBays, |l.cs|) > 0
  {
    hide Exposed, FreeBelow, ChosenOf;
    var k := Kept(l, starts, maxBays, |l.cs|);
    LowestStart(l, starts, maxBays);
    KeptIsLast(l, starts, maxBays, |l.cs|);
    forall i: nat | i < |l.cs| ensures Exposed(l, starts, maxBays, i) > 0 <==> StartsBelow(l, starts, i, maxBays) {
      ExposedPositive(l, starts, maxBays, i);
    }
    if k > 0 {
      assert StartsBelow(l, starts, k - 1, maxBays);
    }
  }

  /** The strings are one digit and two hex digits per controller exactly when every start fits in two digits, or
      when no port is exposed and the fallback stands alone. */
  lemma AlignedExactly(l: Layout, starts: seq<int>, maxBays: nat)
    requires IsPlacement(l, starts) && StartsOk(l, starts) && maxBays > 0
    ensures Aligned(RenderMaps(l, starts, maxBays)) <==> InByte(starts) || !AnyExposed(l, maxBays)
  {
    hide RenderMaps, Aligned, InByte, AnyExposed;
    MapsMeaning(l, starts, maxBays);
    AnyExposedIsKept(l, starts, maxBays);
  }
}
