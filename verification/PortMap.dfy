/** SataPortMap and DiskIdxMap from the controllers and the chosen bays: internal/cmdline/autorender.go. */
module PortMap {
  import opened GoStrings

  datatype Kind = Sata | Scsi
  datatype Port = Port(name: Bytes, index: u32)
  datatype Controller = Controller(kind: Kind, pcieRoot: Bytes, ports: seq<Port>)

  const NO_ATA: nat := 0x4000_0000
  const SPACE: Bytes := [32]

  // ----- ata numbers

  function FirstDigit(s: Bytes, i: nat): (j: nat)
    requires i <= |s|
    ensures i <= j <= |s| && (forall k | i <= k < j :: !IsDigit(s[k])) && (j < |s| ==> IsDigit(s[j]))
    decreases |s| - i
  {
    if i == |s| || IsDigit(s[i]) then i else FirstDigit(s, i + 1)
  }

  function DigitsEnd(s: Bytes, i: nat): (j: nat)
    requires i <= |s|
    ensures i <= j <= |s| && (forall k | i <= k < j :: IsDigit(s[k])) && (j < |s| ==> !IsDigit(s[j]))
    decreases |s| - i
  {
    if i == |s| || !IsDigit(s[i]) then i else DigitsEnd(s, i + 1)
  }

  const TWO_63: int := 0x8000_0000_0000_0000
  const TWO_64: int := 0x1_0000_0000_0000_0000

  /** The value of a 64-bit int, which wraps around. */
  function Signed(v: int): (r: int)
    ensures -TWO_63 <= r < TWO_63 && (-TWO_63 <= v < TWO_63 ==> r == v)
  {
    (v + TWO_63) % TWO_64 - TWO_63
  }

  /** The first number in a port name, as a 64-bit int holds it; a name without one sorts to the back. */
  function AtaNumber(name: Bytes): int {
    var a := FirstDigit(name, 0);
    if a == |name| then NO_ATA else Signed(DigitsValue(name[a..DigitsEnd(name, a)]))
  }

  lemma {:induction false} WholeTurns(v: int, turns: nat)
    ensures (v + turns * TWO_64) % TWO_64 == v % TWO_64
  {
    if turns > 0 {
      WholeTurns(v, turns - 1);
      assert v + turns * TWO_64 == v + (turns - 1) * TWO_64 + TWO_64;
    }
  }

  /** Wrapping at every digit comes to wrapping once. */
  lemma WrapOnce(v: nat, d: nat)
    ensures Signed(10 * Signed(v) + d) == Signed(10 * v + d)
  {
    hide Signed;
    var turns := (v + TWO_63) / TWO_64;
    assert v == Signed(v) + turns * TWO_64 by {
      SignedTurns(v);
    }
    SignedIs(10 * Signed(v) + d);
    SignedIs(10 * v + d);
    WholeTurns(10 * Signed(v) + d + TWO_63, 10 * turns);
  }

  lemma SignedTurns(v: nat)
    ensures v == Signed(v) + (v + TWO_63) / TWO_64 * TWO_64
  {
  }

  lemma SignedIs(v: int)
    ensures Signed(v) == (v + TWO_63) % TWO_64 - TWO_63
  {
  }

  lemma OneMoreDigit(name: Bytes, a: nat, i: nat)
    requires a <= i < |name| && AllDigits(name[a..i]) && IsDigit(name[i])
    ensures DigitsEnd(name, i) == DigitsEnd(name, i + 1) && AllDigits(name[a..i + 1])
    ensures DigitsValue(name[a..i + 1]) == 10 * DigitsValue(name[a..i]) + (name[i] - 48) as int
    ensures DigitsValue([]) == 0
  {
    assert name[a..i + 1][..i - a] == name[a..i] && name[a..i + 1][i - a] == name[i];
    assert name[a..i + 1] == name[a..i] + [name[i]];
  }

  lemma DigitsEndHere(name: Bytes, i: nat)
    requires i <= |name| && (i < |name| ==> !IsDigit(name[i]))
    ensures DigitsEnd(name, i) == i
  {
  }

  method AtaNumOf(name: Bytes) returns (n: int)
    ensures n == AtaNumber(name)
  {
    hide DigitsEnd, DigitsValue, FirstDigit, Signed;
    n := 0;
    var seen := false;
    var i := 0;
    ghost var a := FirstDigit(name, 0);
    while i < |name|
      invariant i <= |name|
      invariant !seen ==> n == 0 && i <= a
      invariant seen ==> a < i && DigitsEnd(name, a) == DigitsEnd(name, i)
      invariant seen ==> AllDigits(name[a..i]) && n == Signed(DigitsValue(name[a..i]))
    {
      if IsDigit(name[i]) {
        assert !seen ==> i == a && name[a..i] == [];
        OneMoreDigit(name, a, i);
        WrapOnce(if seen then DigitsValue(name[a..i]) else 0, (name[i] - 48) as int);
        n := Signed(n * 10 + (name[i] - 48) as int);
        seen := true;
      } else if seen {
        break;
      }
      i := i + 1;
    }
    if !seen {
      return NO_ATA;
    }
    DigitsEndHere(name, i);
  }

  /** The lowest ata number among the ports. */
  function MinAta(ports: seq<Port>): (m: int)
    ensures m <= NO_ATA
  {
    if ports == [] then NO_ATA
    else
      var m, n := MinAta(ports[..|ports| - 1]), AtaNumber(ports[|ports| - 1].name);
      if n < m then n else m
  }

  method MinAtaOf(c: Controller) returns (best: int)
    ensures best == MinAta(c.ports)
  {
    hide AtaNumber;
    best := NO_ATA;
    for i := 0 to |c.ports|
      invariant best == MinAta(c.ports[..i])
    {
      assert c.ports[..i + 1][..i] == c.ports[..i];
      var n := AtaNumOf(c.ports[i].name);
      if n < best {
        best := n;
      }
    }
    assert c.ports[..|c.ports|] == c.ports;
  }

  // ----- the enumeration order: a stable sort by the lowest ata number

  function InsertByAta(sorted: seq<Controller>, c: Controller): (r: seq<Controller>)
    ensures |r| == |sorted| + 1
  {
    if sorted == [] || MinAta(sorted[|sorted| - 1].ports) <= MinAta(c.ports) then sorted + [c]
    else InsertByAta(sorted[..|sorted| - 1], c) + [sorted[|sorted| - 1]]
  }

  function SortByAta(cs: seq<Controller>): (r: seq<Controller>)
    ensures |r| == |cs|
  {
    if cs == [] then [] else InsertByAta(SortByAta(cs[..|cs| - 1]), cs[|cs| - 1])
  }

  method OrderByAta(cs: seq<Controller>) returns (ordered: seq<Controller>)
    ensures ordered == SortByAta(cs)
  {
    ordered := [];
    for i := 0 to |cs|
      invariant ordered == SortByAta(cs[..i])
    {
      assert cs[..i + 1][..i] == cs[..i];
      ordered := Insert(ordered, cs[i]);
    }
    assert cs[..|cs|] == cs;
  }

  lemma InsertDeeper(sorted: seq<Controller>, c: Controller, k: nat)
    requires 0 < k <= |sorted| && MinAta(sorted[k - 1].ports) > MinAta(c.ports)
    ensures InsertByAta(sorted[..k], c) + sorted[k..] == InsertByAta(sorted[..k - 1], c) + sorted[k - 1..]
  {
    hide MinAta;
    assert sorted[..k][..k - 1] == sorted[..k - 1];
    assert sorted[k - 1..] == [sorted[k - 1]] + sorted[k..];
  }

  lemma InsertHere(sorted: seq<Controller>, c: Controller)
    requires sorted == [] || MinAta(sorted[|sorted| - 1].ports) <= MinAta(c.ports)
    ensures InsertByAta(sorted, c) == sorted + [c]
  {
  }

  method Insert(sorted: seq<Controller>, c: Controller) returns (r: seq<Controller>)
    ensures r == InsertByAta(sorted, c)
  {
    hide MinAta, InsertByAta;
    var n := MinAtaOf(c);
    var k: nat := |sorted|;
    assert sorted[..k] == sorted && InsertByAta(sorted, c) + sorted[k..] == InsertByAta(sorted, c);
    while k > 0
      invariant k <= |sorted|
      invariant InsertByAta(sorted, c) == InsertByAta(sorted[..k], c) + sorted[k..]
    {
      var m := MinAtaOf(sorted[k - 1]);
      if m <= n {
        break;
      }
      InsertDeeper(sorted, c, k);
      k := k - 1;
    }
    InsertHere(sorted[..k], c);
    r := sorted[..k] + [c] + sorted[k..];
  }

  // ----- the chosen bays

  function PortKey(root: Bytes, index: u32): Bytes { root + SPACE + Itoa(index) }

  /** Port key to bay number, counted from 1; blank entries keep their place. */
  function BayMap(order: seq<Bytes>): (m: map<Bytes, nat>)
    ensures forall k <- m :: 1 <= m[k] <= |order|
  {
    hide TrimSpace;
    if order == [] then map[]
    else
      var m, k := BayMap(order[..|order| - 1]), TrimSpace(order[|order| - 1]);
      if k == [] then m else m[k := |order|]
  }

  lemma LastBay(order: seq<Bytes>)
    requires order != []
    ensures var m, k := BayMap(order[..|order| - 1]), TrimSpace(order[|order| - 1]);
            BayMap(order) == if k == [] then m else m[k := |order|]
  {
    hide TrimSpace;
  }

  lemma BayMapNext(order: seq<Bytes>, key: Bytes)
    ensures BayMap(order + [key])
            == if TrimSpace(key) == [] then BayMap(order) else BayMap(order)[TrimSpace(key) := |order| + 1]
  {
    hide TrimSpace, BayMap;
    var all := order + [key];
    assert all[..|order|] == order && all[|all| - 1] == key;
    LastBay(all);
  }

  lemma NoBays()
    ensures BayMap([]) == map[]
  {
  }

  method ReadBays(order: seq<Bytes>) returns (bay: map<Bytes, nat>)
    ensures bay == BayMap(order)
  {
    hide BayMap, TrimSpace;
    bay := map[];
    NoBays();
    assert order[..0] == [];
    for i := 0 to |order|
      invariant bay == BayMap(order[..i])
    {
      assert order[..i + 1] == order[..i] + [order[i]];
      BayMapNext(order[..i], order[i]);
      var k := TrimSpace(order[i]);
      if k != [] {
        bay := bay[k := i + 1];
      }
    }
    assert order[..|order|] == order;
  }

  /** The first listed port fixes where the controller starts; a start before the first bay is moved to it. */
  function ChosenStart(root: Bytes, ports: seq<Port>, bay: map<Bytes, nat>): (s: Option<nat>)
    requires forall k <- bay :: bay[k] >= 1
  {
    if ports == [] then None
    else
      var key := PortKey(root, ports[0].index);
      if key !in bay then ChosenStart(root, ports[1..], bay)
      else
        var s := bay[key] - 1 - ports[0].index;
        Some(if s < 0 then 0 else s)
  }

  function Chosen(c: Controller, bay: map<Bytes, nat>): Option<nat>
    requires forall k <- bay :: bay[k] >= 1
  {
    ChosenStart(c.pcieRoot, c.ports, bay)
  }

  // ----- where each controller starts

  /** Bays and controllers in DSM's order: what the placement works on. */
  datatype Layout = Layout(cs: seq<Controller>, bay: map<Bytes, nat>)

  ghost predicate LayoutOk(l: Layout) { forall k <- l.bay :: l.bay[k] >= 1 }

  predicate InWindow(start: int, width: nat, d: nat) { start <= d < start + width }

  function ChosenOf(l: Layout, i: nat): Option<nat>
    requires LayoutOk(l) && i < |l.cs|
  {
    Chosen(l.cs[i], l.bay)
  }

  function Width(l: Layout, i: nat): nat
    requires i < |l.cs|
  {
    |l.cs[i].ports|
  }

  /** Controller j has a chosen start whose window holds disk index d. */
  predicate ChosenHolds(l: Layout, j: nat, d: nat)
    requires LayoutOk(l) && j < |l.cs|
  {
    ChosenOf(l, j).Some? && InWindow(ChosenOf(l, j).value, Width(l, j), d)
  }

  predicate Free(used: set<nat>, start: nat, width: nat) {
    forall d | start <= d < start + width :: d !in used
  }

  /** Disk index d is taken when controller i is placed: by a chosen one, or by one placed before. */
  ghost predicate Taken(l: Layout, starts: seq<int>, i: nat, d: nat)
    requires LayoutOk(l) && |starts| == |l.cs|
  {
    exists j: nat | j < |l.cs| :: Holds(l, starts, i, j, d)
  }

  ghost predicate Holds(l: Layout, starts: seq<int>, i: nat, j: nat, d: nat)
    requires LayoutOk(l) && |starts| == |l.cs| && j < |l.cs|
  {
    (ChosenOf(l, j).Some? || j < i) && InWindow(starts[j], Width(l, j), d)
  }

  ghost predicate Fits(l: Layout, starts: seq<int>, i: nat, s: nat)
    requires LayoutOk(l) && |starts| == |l.cs| && i < |l.cs|
  {
    forall d | s <= d < s + Width(l, i) :: !Taken(l, starts, i, d)
  }

  ghost predicate PlacedAt(l: Layout, starts: seq<int>, i: nat)
    requires LayoutOk(l) && |starts| == |l.cs| && i < |l.cs|
  {
    if ChosenOf(l, i).Some? then starts[i] == ChosenOf(l, i).value
    else 0 <= starts[i] && Fits(l, starts, i, starts[i]) && forall s: nat | s < starts[i] :: !Fits(l, starts, i, s)
  }

  /** Chosen starts are kept; every other controller has the least start whose window is free. */
  ghost predicate IsPlacement(l: Layout, starts: seq<int>) {
    && LayoutOk(l) && |starts| == |l.cs|
    && forall i: nat | i < |l.cs| :: PlacedAt(l, starts, i)
  }

  function TotalPorts(cs: seq<Controller>): nat {
    if cs == [] then 0 else TotalPorts(cs[..|cs| - 1]) + |cs[|cs| - 1].ports|
  }

  /** Pass 1: the start of every controller with a listed port. */
  method StartsFromBays(l: Layout) returns (starts: seq<int>, used: set<nat>)
    requires LayoutOk(l)
    ensures |starts| == |l.cs|
    ensures forall i: nat | i < |l.cs| :: starts[i] == if ChosenOf(l, i).Some? then ChosenOf(l, i).value else -1
    ensures forall d: nat :: d in used <==> exists j: nat | j < |l.cs| :: ChosenHolds(l, j, d)
  {
    hide ChosenOf;
    starts, used := [], {};
    for i := 0 to |l.cs|
      invariant |starts| == i
      invariant forall j: nat | j < i :: starts[j] == if ChosenOf(l, j).Some? then ChosenOf(l, j).value else -1
      invariant forall d :: d in used <==> exists j: nat | j < i :: ChosenHolds(l, j, d)
    {
      var start := ListedStart(l, i);
      starts := starts + [start];
      ghost var before := used;
      if start >= 0 {
        used := MarkUsed(used, start, |l.cs[i].ports|);
      }
      assert forall d :: d in used <==> d in before || ChosenHolds(l, i, d);
    }
  }

  method ListedStart(l: Layout, i: nat) returns (start: int)
    requires LayoutOk(l) && i < |l.cs|
    ensures start == if ChosenOf(l, i).Some? then ChosenOf(l, i).value else -1
  {
    hide PortKey;
    var c, bay := l.cs[i], l.bay;
    start := -1;
    assert c.ports[0..] == c.ports;
    for k := 0 to |c.ports|
      invariant start == -1
      invariant Chosen(c, bay) == ChosenStart(c.pcieRoot, c.ports[k..], bay)
    {
      var pt := c.ports[k];
      var key := PortKey(c.pcieRoot, pt.index);
      if key in bay {
        var s := bay[key] - 1 - pt.index;
        if s < 0 {
          s := 0;
        }
        return s;
      }
      assert c.ports[k..][1..] == c.ports[k + 1..];
    }
  }

  method MarkUsed(used: set<nat>, start: nat, width: nat) returns (r: set<nat>)
    ensures forall d: nat :: d in r <==> d in used || InWindow(start, width, d)
  {
    r := used;
    for k := 0 to width
      invariant forall d: nat :: d in r <==> d in used || InWindow(start, k, d)
    {
      r := r + {start + k};
    }
  }

  /** The first start from 0 whose window is free; the search ends by `limit`, past every used index. */
  method FirstFree(used: set<nat>, width: nat, ghost limit: nat) returns (s: nat)
    requires forall d <- used :: d < limit
    ensures s <= limit && Free(used, s, width)
    ensures forall t: nat | t < s :: !Free(used, t, width)
  {
    s := 0;
    while true
      invariant s <= limit
      invariant forall t: nat | t < s :: !Free(used, t, width)
      decreases limit - s
    {
      var free := true;
      var k := 0;
      while k < width
        invariant k <= width && free
        invariant Free(used, s, k)
      {
        if s + k in used {
          free := false;
          break;
        }
        k := k + 1;
      }
      if free {
        return;
      }
      s := s + 1;
    }
  }

  ghost predicate AllBelow(used: set<nat>, limit: nat) { forall d <- used :: d < limit }

  /** `used` is what pass 2 has recorded when it comes to controller i. */
  ghost predicate UsedBefore(l: Layout, starts: seq<int>, used: set<nat>, i: nat)
    requires LayoutOk(l) && |starts| == |l.cs|
  {
    forall d: nat :: d in used <==> Taken(l, starts, i, d)
  }

  /** The ports of the first k controllers that are placed when pass 2 comes to controller i. */
  function PlacedPorts(l: Layout, i: nat, k: nat): nat
    requires LayoutOk(l) && k <= |l.cs|
  {
    if k == 0 then 0
    else PlacedPorts(l, i, k - 1) + if ChosenOf(l, k - 1).Some? || k - 1 < i then Width(l, k - 1) else 0
  }

  lemma {:induction false} PlacedPortsNext(l: Layout, i: nat, k: nat)
    requires LayoutOk(l) && i < |l.cs| && k <= |l.cs|
    ensures PlacedPorts(l, i + 1, k) == PlacedPorts(l, i, k) + if i < k && ChosenOf(l, i).None? then Width(l, i) else 0
  {
    hide ChosenOf;
    if k > 0 {
      PlacedPortsNext(l, i, k - 1);
    }
  }

  lemma {:induction false} PlacedPortsHave(l: Layout, i: nat, k: nat, j: nat)
    requires LayoutOk(l) && j < k <= |l.cs| && ChosenOf(l, j).Some?
    ensures Width(l, j) <= PlacedPorts(l, i, k)
  {
    hide ChosenOf;
    if j < k - 1 {
      PlacedPortsHave(l, i, k - 1, j);
    }
  }

  lemma {:induction false} PlacedPortsAtMost(l: Layout, i: nat, k: nat)
    requires LayoutOk(l) && k <= |l.cs|
    ensures PlacedPorts(l, i, k) <= TotalPorts(l.cs[..k])
  {
    hide ChosenOf;
    if k > 0 {
      PlacedPortsAtMost(l, i, k - 1);
      assert l.cs[..k][..k - 1] == l.cs[..k - 1];
    }
  }

  ghost predicate ChosenKept(l: Layout, starts: seq<int>)
    requires LayoutOk(l) && |starts| == |l.cs|
  {
    forall i: nat | i < |l.cs| && ChosenOf(l, i).Some? :: starts[i] == ChosenOf(l, i).value
  }

  ghost predicate AgreeBefore(l: Layout, a: seq<int>, b: seq<int>, k: nat)
    requires LayoutOk(l)
  {
    && |a| == |b| == |l.cs|
    && forall j: nat | j < |l.cs| && (ChosenOf(l, j).Some? || j < k) :: a[j] == b[j]
  }

  lemma TakenAgrees(l: Layout, a: seq<int>, b: seq<int>, k: nat, d: nat)
    requires LayoutOk(l) && AgreeBefore(l, a, b, k) && Taken(l, a, k, d)
    ensures Taken(l, b, k, d)
  {
    hide ChosenOf;
    var j: nat :| j < |l.cs| && Holds(l, a, k, j, d);
    assert Holds(l, b, k, j, d);
  }

  /** Later starts do not matter to controller k. */
  lemma FitsAgrees(l: Layout, a: seq<int>, b: seq<int>, k: nat, s: nat)
    requires LayoutOk(l) && AgreeBefore(l, a, b, k) && k < |l.cs| && Fits(l, a, k, s)
    ensures Fits(l, b, k, s)
  {
    hide ChosenOf, Taken;
    forall d: nat | Taken(l, b, k, d) ensures Taken(l, a, k, d) {
      TakenAgrees(l, b, a, k, d);
    }
  }

  lemma PlacedAgrees(l: Layout, a: seq<int>, b: seq<int>, k: nat)
    requires LayoutOk(l) && AgreeBefore(l, a, b, k) && k < |l.cs| && a[k] == b[k] && PlacedAt(l, a, k)
    ensures PlacedAt(l, b, k)
  {
    hide ChosenOf, Taken, Fits;
    if ChosenOf(l, k).None? {
      FitsAgrees(l, a, b, k, a[k]);
      forall s: nat | s < a[k] ensures !Fits(l, b, k, s) {
        if Fits(l, b, k, s) {
          FitsAgrees(l, b, a, k, s);
        }
      }
    }
  }

  lemma TakenNext(l: Layout, starts: seq<int>, i: nat, d: nat)
    requires LayoutOk(l) && |starts| == |l.cs| && i < |l.cs|
    ensures Taken(l, starts, i + 1, d) <==>
              Taken(l, starts, i, d) || (ChosenOf(l, i).None? && InWindow(starts[i], Width(l, i), d))
  {
    hide ChosenOf;
    if Taken(l, starts, i + 1, d) {
      var j: nat :| j < |l.cs| && Holds(l, starts, i + 1, j, d);
      assert j != i ==> Holds(l, starts, i, j, d);
      assert j == i && ChosenOf(l, i).Some? ==> Holds(l, starts, i, j, d);
    }
    if Taken(l, starts, i, d) {
      var j: nat :| j < |l.cs| && Holds(l, starts, i, j, d);
      assert Holds(l, starts, i + 1, j, d);
    }
    if ChosenOf(l, i).None? && InWindow(starts[i], Width(l, i), d) {
      assert Holds(l, starts, i + 1, i, d);
    }
  }

  lemma FreeIsFit(l: Layout, starts: seq<int>, used: set<nat>, i: nat, s: nat)
    requires LayoutOk(l) && |starts| == |l.cs| && i < |l.cs| && UsedBefore(l, starts, used, i)
    ensures Free(used, s, Width(l, i)) == Fits(l, starts, i, s)
  {
    hide ChosenOf, Taken, Width;
  }

  lemma PlacedFirst(l: Layout, starts: seq<int>, after: seq<int>, used: set<nat>, i: nat, s: nat)
    requires LayoutOk(l) && |starts| == |l.cs| && i < |l.cs| && ChosenOf(l, i).None?
    requires after == starts[i := s] && UsedBefore(l, starts, used, i)
    requires Free(used, s, Width(l, i)) && forall t: nat | t < s :: !Free(used, t, Width(l, i))
    ensures PlacedAt(l, after, i)
  {
    hide ChosenOf, Taken, Fits, Free, Width;
    FreeIsFit(l, starts, used, i, s);
    FitsAgrees(l, starts, after, i, s);
    forall t: nat | t < s ensures !Fits(l, after, i, t) {
      FreeIsFit(l, starts, used, i, t);
      if Fits(l, after, i, t) {
        FitsAgrees(l, after, starts, i, t);
      }
    }
  }

  /** Passes 1 and 2: every controller has a start, and every window ends within the bays and ports there are. */
  method PlaceControllers(l: Layout, ghost bays: nat) returns (starts: seq<int>)
    requires LayoutOk(l) && forall k <- l.bay :: l.bay[k] <= bays
    ensures IsPlacement(l, starts)
    ensures forall i: nat | i < |l.cs| :: 0 <= starts[i] <= bays + TotalPorts(l.cs)
  {
    hide ChosenOf, Taken, UsedBefore, PlacedAt, PlacedPorts;
    var used;
    ghost var n := |l.cs|;
    starts, used := StartsFromBays(l);
    StartOfPass2(l, bays, starts, used);
    for i := 0 to |l.cs|
      invariant |starts| == n && ChosenKept(l, starts)
      invariant forall j: nat | i <= j < n && ChosenOf(l, j).None? :: starts[j] == -1
      invariant forall j: nat | j < i :: PlacedAt(l, starts, j)
      invariant UsedBefore(l, starts, used, i) && AllBelow(used, bays + PlacedPorts(l, i, n))
      invariant forall j: nat | j < i :: 0 <= starts[j] <= bays + PlacedPorts(l, i, n)
    {
      PlacedPortsNext(l, i, n);
      if starts[i] < 0 {
        var s := FirstFree(used, |l.cs[i].ports|, bays + PlacedPorts(l, i, n));
        ghost var before, usedBefore := starts, used;
        starts := starts[i := s];
        used := MarkUsed(used, s, |l.cs[i].ports|);
        Pass2Step(l, before, starts, usedBefore, used, i, s);
      } else {
        ChosenStep(l, bays, starts, used, i);
      }
    }
    PlacedPortsAtMost(l, n, n);
    assert l.cs[..n] == l.cs;
  }

  lemma ChosenIsBelow(l: Layout, bays: nat, j: nat)
    requires LayoutOk(l) && (forall k <- l.bay :: l.bay[k] <= bays) && j < |l.cs| && ChosenOf(l, j).Some?
    ensures ChosenOf(l, j).value < bays
  {
    ChosenStartIsBelow(l.cs[j].pcieRoot, l.cs[j].ports, l.bay, bays);
  }

  lemma {:induction false} ChosenStartIsBelow(root: Bytes, ports: seq<Port>, bay: map<Bytes, nat>, bays: nat)
    requires (forall k <- bay :: 1 <= bay[k] <= bays) && ChosenStart(root, ports, bay).Some?
    ensures ChosenStart(root, ports, bay).value < bays
  {
    hide PortKey;
    if PortKey(root, ports[0].index) !in bay {
      ChosenStartIsBelow(root, ports[1..], bay, bays);
    }
  }

  lemma StartOfPass2(l: Layout, bays: nat, starts: seq<int>, used: set<nat>)
    requires LayoutOk(l) && (forall k <- l.bay :: l.bay[k] <= bays) && |starts| == |l.cs|
    requires forall i: nat | i < |l.cs| :: starts[i] == if ChosenOf(l, i).Some? then ChosenOf(l, i).value else -1
    requires forall d: nat :: d in used <==> exists j: nat | j < |l.cs| :: ChosenHolds(l, j, d)
    ensures UsedBefore(l, starts, used, 0) && AllBelow(used, bays + PlacedPorts(l, 0, |l.cs|))
  {
    hide ChosenOf, PlacedPorts;
    forall d: nat ensures d in used <==> Taken(l, starts, 0, d) {
      assert forall j: nat | j < |l.cs| :: ChosenHolds(l, j, d) == Holds(l, starts, 0, j, d);
    }
    forall d | d in used ensures d < bays + PlacedPorts(l, 0, |l.cs|) {
      var j: nat :| j < |l.cs| && ChosenHolds(l, j, d);
      ChosenIsBelow(l, bays, j);
      PlacedPortsHave(l, 0, |l.cs|, j);
    }
  }

  lemma Pass2Step(l: Layout, starts: seq<int>, after: seq<int>, used: set<nat>, usedAfter: set<nat>, i: nat, s: nat)
    requires LayoutOk(l) && |starts| == |l.cs| && i < |l.cs| && ChosenKept(l, starts) && starts[i] < 0
    requires UsedBefore(l, starts, used, i) && after == starts[i := s]
    requires Free(used, s, Width(l, i)) && forall t: nat | t < s :: !Free(used, t, Width(l, i))
    requires forall d: nat :: d in usedAfter <==> d in used || InWindow(s, Width(l, i), d)
    requires forall j: nat | j < i :: PlacedAt(l, starts, j)
    ensures ChosenOf(l, i).None? && ChosenKept(l, after)
    ensures forall j: nat | j < i + 1 :: PlacedAt(l, after, j)
    ensures UsedBefore(l, after, usedAfter, i + 1)
  {
    hide ChosenOf, Taken, PlacedAt, Width, Free;
    PlacedFirst(l, starts, after, used, i, s);
    forall j: nat | j < i ensures PlacedAt(l, after, j) {
      PlacedAgrees(l, starts, after, j);
    }
    forall d: nat ensures Taken(l, after, i + 1, d) <==> d in usedAfter {
      TakenNext(l, after, i, d);
      if Taken(l, after, i, d) {
        TakenAgrees(l, after, starts, i, d);
      }
      if Taken(l, starts, i, d) {
        TakenAgrees(l, starts, after, i, d);
      }
    }
  }

  lemma ChosenStep(l: Layout, bays: nat, starts: seq<int>, used: set<nat>, i: nat)
    requires LayoutOk(l) && |starts| == |l.cs| && i < |l.cs| && ChosenKept(l, starts)
    requires (forall k <- l.bay :: l.bay[k] <= bays) && ChosenOf(l, i).Some?
    requires UsedBefore(l, starts, used, i)
    ensures PlacedAt(l, starts, i) && UsedBefore(l, starts, used, i + 1) && 0 <= starts[i] <= bays
  {
    hide ChosenOf, Taken;
    ChosenIsBelow(l, bays, i);
    forall d: nat ensures Taken(l, starts, i + 1, d) == Taken(l, starts, i, d) {
      TakenNext(l, starts, i, d);
    }
  }

  // ----- pass 3: one digit and two hex digits per controller

  datatype Maps = Maps(portmap: Bytes, idxmap: Bytes)

  /** The ports that fit in a digit and below the bay count. */
  function WithinBays(width: nat, start: int, maxBays: nat): nat {
    var n := Min(width, 9);
    if n == 0 || start >= maxBays then 0 else if start < 0 then n else Min(n, maxBays - start)
  }

  /** n capped so that a later chosen start among the first k controllers is not run into. */
  function Capped(l: Layout, starts: seq<int>, i: nat, n: nat, k: nat): (r: nat)
    requires LayoutOk(l) && |starts| == |l.cs| && i < |l.cs| && k <= |l.cs|
    ensures r <= n
  {
    if k == 0 then n
    else
      var m := Capped(l, starts, i, n, k - 1);
      if ChosenOf(l, k - 1).Some? && starts[k - 1] > starts[i] then Min(m, starts[k - 1] - starts[i]) else m
  }

  /** How many ports of controller i SataPortMap exposes. */
  function Exposed(l: Layout, starts: seq<int>, maxBays: nat, i: nat): (n: nat)
    requires LayoutOk(l) && |starts| == |l.cs| && i < |l.cs|
    ensures n <= 9
  {
    Capped(l, starts, i, WithinBays(Width(l, i), starts[i], maxBays), |l.cs|)
  }

  function Hex(n: nat): (s: Bytes)
    ensures |s| > 0 && (n < 16 ==> s == [HexDigit(n)])
  {
    if n < 16 then [HexDigit(n)] else Hex(n / 16) + [HexDigit(n % 16)]
  }

  /** fmt's %02x of a number that is not negative. */
  function Hex2(n: nat): (s: Bytes)
    ensures |s| >= 2 && (n < 256 ==> s == [HexDigit(n / 16), HexDigit(n % 16)])
  {
    if n < 16 then [48] + Hex(n) else Hex(n)
  }

  predicate StartsOk(l: Layout, starts: seq<int>) {
    |starts| == |l.cs| && forall i | 0 <= i < |starts| :: starts[i] >= 0
  }

  function PortDigits(l: Layout, starts: seq<int>, maxBays: nat, k: nat): (s: Bytes)
    requires LayoutOk(l) && StartsOk(l, starts) && k <= |l.cs|
    ensures |s| == k
  {
    if k == 0 then []
    else PortDigits(l, starts, maxBays, k - 1) + [(48 + Exposed(l, starts, maxBays, k - 1)) as byte]
  }

  function StartDigits(l: Layout, starts: seq<int>, k: nat): (s: Bytes)
    requires LayoutOk(l) && StartsOk(l, starts) && k <= |l.cs|
    ensures |s| >= 2 * k
  {
    if k == 0 then [] else StartDigits(l, starts, k - 1) + Hex2(starts[k - 1])
  }

  function TrimZeros(m: Maps): (r: Maps)
    requires |m.idxmap| >= 2 * |m.portmap|
    decreases |m.portmap|
  {
    var n := |m.portmap|;
    if n > 0 && m.portmap[n - 1] == ZERO then TrimZeros(Maps(m.portmap[..n - 1], m.idxmap[..|m.idxmap| - 2])) else m
  }

  const ONE: byte := 49

  function FixLeadingZero(m: Maps): Maps {
    if m.portmap != [] && m.portmap[0] == ZERO then Maps([ONE] + m.portmap[1..], m.idxmap)
    else if m.portmap == [] then Maps([ONE], [ZERO, ZERO])
    else m
  }

  function RenderMaps(l: Layout, starts: seq<int>, maxBays: nat): Maps
    requires LayoutOk(l) && StartsOk(l, starts)
  {
    FixLeadingZero(TrimZeros(Maps(PortDigits(l, starts, maxBays, |l.cs|), StartDigits(l, starts, |l.cs|))))
  }

  method ExposedPorts(l: Layout, starts: seq<int>, maxBays: nat, i: nat) returns (n: nat)
    requires LayoutOk(l) && StartsOk(l, starts) && i < |l.cs|
    ensures n == Exposed(l, starts, maxBays, i)
  {
    hide ChosenOf;
    n := |l.cs[i].ports|;
    if n > 9 {
      n := 9;
    }
    if n <= 0 || starts[i] >= maxBays {
      n := 0;
    } else if n > maxBays - starts[i] {
      n := maxBays - starts[i];
    }
    ghost var within := n;
    for j := 0 to |l.cs|
      invariant n == Capped(l, starts, i, within, j)
    {
      var start := ListedStart(l, j);
      if start >= 0 && starts[j] > starts[i] {
        if n > starts[j] - starts[i] {
          n := starts[j] - starts[i];
        }
      }
    }
  }

  method WriteMaps(l: Layout, starts: seq<int>, maxBays: nat) returns (portmap: Bytes, idxmap: Bytes)
    requires LayoutOk(l) && StartsOk(l, starts)
    ensures Maps(portmap, idxmap) == RenderMaps(l, starts, maxBays)
  {
    hide Exposed, Hex2;
    portmap, idxmap := [], [];
    for i := 0 to |l.cs|
      invariant portmap == PortDigits(l, starts, maxBays, i)
      invariant idxmap == StartDigits(l, starts, i)
    {
      var n := ExposedPorts(l, starts, maxBays, i);
      portmap := portmap + [(48 + n) as byte];
      idxmap := idxmap + Hex2(starts[i]);
    }
    ghost var all := Maps(portmap, idxmap);
    while |portmap| > 0 && portmap[|portmap| - 1] == ZERO
      invariant |idxmap| >= 2 * |portmap|
      invariant TrimZeros(all) == TrimZeros(Maps(portmap, idxmap))
    {
      portmap := portmap[..|portmap| - 1];
      idxmap := idxmap[..|idxmap| - 2];
    }
    if |portmap| > 0 && portmap[0] == ZERO {
      portmap := [ONE] + portmap[1..];
    } else if portmap == [] {
      portmap, idxmap := [ONE], [ZERO, ZERO];
    }
  }

  function SataOnly(cs: seq<Controller>): seq<Controller> {
    if cs == [] then []
    else SataOnly(cs[..|cs| - 1]) + if cs[|cs| - 1].kind == Sata then [cs[|cs| - 1]] else []
  }

  function LayoutFor(cs: seq<Controller>, bayOrder: seq<Bytes>): (l: Layout)
    ensures LayoutOk(l)
  {
    Layout(SortByAta(SataOnly(cs)), BayMap(bayOrder))
  }

  method PortMapFor(cs: seq<Controller>, bayOrder: seq<Bytes>, maxBays: int)
    returns (portmap: Bytes, idxmap: Bytes, ghost starts: seq<int>)
    ensures SataOnly(cs) == [] ==> portmap == [] && idxmap == []
    ensures SataOnly(cs) != [] ==>
              var l := LayoutFor(cs, bayOrder);
              && IsPlacement(l, starts) && StartsOk(l, starts)
              && Maps(portmap, idxmap) == RenderMaps(l, starts, if maxBays <= 0 then 255 else maxBays)
  {
    hide RenderMaps, SortByAta, PlacedAt;
    var sata: seq<Controller> := [];
    for i := 0 to |cs|
      invariant sata == SataOnly(cs[..i])
    {
      assert cs[..i + 1][..i] == cs[..i];
      if cs[i].kind == Sata {
        sata := sata + [cs[i]];
      }
    }
    assert cs[..|cs|] == cs;
    if |sata| == 0 {
      return [], [], [];
    }
    var bays := maxBays;
    if bays <= 0 {
      bays := 0xff;
    }
    var bay := ReadBays(bayOrder);
    var ordered := OrderByAta(sata);
    var l := Layout(ordered, bay);
    var placed := PlaceControllers(l, |bayOrder|);
    starts := placed;
    portmap, idxmap := WriteMaps(l, placed, bays);
  }
}
