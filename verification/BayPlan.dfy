/** The bay editor, its plan file and the ports both device trees get: wizard_linux.go and cmd/vibeldr-init/main.go. */
module BayPlan {
  import opened GoStrings
  import opened Slots
  import opened PortMap
  import opened PortLines

  // ----- the editor

  /** What bay i + 1 holds: blank beyond the end of the list. */
  function BayAt(order: seq<Bytes>, i: nat): Bytes { if i < |order| then TrimSpace(order[i]) else [] }

  function Sized(order: seq<Bytes>, maxBays: nat): (r: seq<Bytes>)
    ensures |r| == maxBays
  {
    seq(maxBays, i requires 0 <= i < maxBays => BayAt(order, i))
  }

  function TrimTail(order: seq<Bytes>): (r: seq<Bytes>)
    ensures r <= order && (r != [] ==> r[|r| - 1] != [])
    ensures forall i | |r| <= i < |order| :: order[i] == []
  {
    if order != [] && order[|order| - 1] == [] then TrimTail(order[..|order| - 1]) else order
  }

  /** The key removed wherever it stood, a blank key from nowhere. */
  function Cleared(order: seq<Bytes>, key: Bytes): (r: seq<Bytes>)
    ensures |r| == |order|
  {
    seq(|order|, i requires 0 <= i < |order| => if key != [] && order[i] == key then [] else order[i])
  }

  function Placed(order: seq<Bytes>, bay: int, key: Bytes, maxBays: nat): seq<Bytes> {
    if 1 <= bay <= maxBays then TrimTail(Cleared(Sized(order, maxBays), key)[bay - 1 := key]) else order
  }

  method BayOrderSized(order: seq<Bytes>, maxBays: nat) returns (out: seq<Bytes>)
    ensures out == Sized(order, maxBays)
  {
    hide TrimSpace;
    out := seq(maxBays, i => []);
    for i := 0 to |order|
      invariant |out| == maxBays
      invariant forall j | 0 <= j < maxBays :: out[j] == if j < i then BayAt(order, j) else []
    {
      if i >= maxBays {
        break;
      }
      out := out[i := TrimSpace(order[i])];
    }
  }

  class BayEditor {
    var order: seq<Bytes>
    var dirty: bool

    constructor (order: seq<Bytes>)
      ensures this.order == order && !dirty
    {
      this.order, dirty := order, false;
    }

    method SetBayPort(bay: int, key: Bytes, maxBays: nat)
      modifies this
      ensures order == Placed(old(order), bay, key, maxBays)
      ensures dirty <==> old(dirty) || 1 <= bay <= maxBays
    {
      hide BayAt;
      var o := BayOrderSized(order, maxBays);
      if bay < 1 || bay > |o| {
        return;
      }
      ghost var sized := o;
      if key != [] {
        for i := 0 to |o|
          invariant |o| == |sized|
          invariant forall j | 0 <= j < |o| :: o[j] == if j < i && sized[j] == key then [] else sized[j]
        {
          if o[i] == key {
            o := o[i := []];
          }
        }
      }
      assert o == Cleared(sized, key);
      o := o[bay - 1 := key];
      ghost var full := o;
      while |o| > 0 && o[|o| - 1] == []
        invariant TrimTail(o) == TrimTail(full)
        decreases |o|
      {
        o := o[..|o| - 1];
      }
      order := o;
      dirty := true;
    }
  }

  /** Putting a port in a bay, bay by bay: it is in that bay, in no other, and nothing else moved. */
  lemma PlacedMeans(order: seq<Bytes>, bay: int, key: Bytes, maxBays: nat, i: nat)
    requires 1 <= bay <= maxBays && TrimSpace(key) == key
    ensures var after := Placed(order, bay, key, maxBays);
            && |after| <= maxBays && (after != [] ==> after[|after| - 1] != [])
            && (i < |after| ==> TrimSpace(after[i]) == after[i])
            && BayAt(after, i) == if i == bay - 1 then key
                                  else if i >= maxBays || (key != [] && BayAt(order, i) == key) then []
                                  else BayAt(order, i)
  {
    hide TrimSpace, BayAt;
    var after := Placed(order, bay, key, maxBays);
    var full := Cleared(Sized(order, maxBays), key)[bay - 1 := key];
    if i < maxBays {
      BayIsTrimmed(order, i);
      TrimmedIsSame([]);
    }
    BayInside(after, i);
    if i < maxBays {
      assert full[i] == if i == bay - 1 then key
                        else if key != [] && BayAt(order, i) == key then [] else BayAt(order, i);
    }
    assert i < |after| ==> after[i] == full[i];
  }

  lemma BayInside(order: seq<Bytes>, i: nat)
    ensures BayAt(order, i) == if i < |order| then TrimSpace(order[i]) else []
  {
    hide TrimSpace;
  }

  lemma TrimTwice(s: Bytes)
    ensures TrimSpace(TrimSpace(s)) == TrimSpace(s)
  {
    hide TrimSpace;
    TrimmedEnds(s);
    TrimmedIsSame(TrimSpace(s));
  }

  lemma BayIsTrimmed(order: seq<Bytes>, i: nat)
    ensures TrimSpace(BayAt(order, i)) == BayAt(order, i)
  {
    hide TrimSpace;
    TrimmedIsSame([]);
    if i < |order| {
      TrimTwice(order[i]);
    }
  }

  /** No port stands in two bays. */
  ghost predicate Distinct(order: seq<Bytes>) {
    forall i: nat, j: nat | i < j :: BayAt(order, i) != [] ==> BayAt(order, i) != BayAt(order, j)
  }

  /** What the editor keeps of a list it has written for so many bays. */
  ghost predicate Tidy(order: seq<Bytes>, maxBays: nat) {
    && Distinct(order) && |order| <= maxBays && (order != [] ==> order[|order| - 1] != [])
    && forall i | 0 <= i < |order| :: TrimSpace(order[i]) == order[i]
  }

  /** One edit, at whatever bay count the model has by then. */
  datatype Edit = Edit(bay: int, key: Bytes, maxBays: nat)

  predicate InRange(e: Edit) { 1 <= e.bay <= e.maxBays }

  function Edited(order: seq<Bytes>, edits: seq<Edit>): seq<Bytes>
    decreases |edits|
  {
    if edits == [] then order
    else
      var e := edits[|edits| - 1];
      Placed(Edited(order, edits[..|edits| - 1]), e.bay, e.key, e.maxBays)
  }

  lemma PlacedIsTidy(order: seq<Bytes>, e: Edit)
    requires Distinct(order) && TrimSpace(e.key) == e.key && InRange(e)
    ensures Tidy(Placed(order, e.bay, e.key, e.maxBays), e.maxBays)
  {
    hide TrimSpace, BayAt, Placed;
    var after := Placed(order, e.bay, e.key, e.maxBays);
    forall i: nat, j: nat | i < j ensures BayAt(after, i) != [] ==> BayAt(after, i) != BayAt(after, j) {
      PlacedMeans(order, e.bay, e.key, e.maxBays, i);
      PlacedMeans(order, e.bay, e.key, e.maxBays, j);
    }
    PlacedMeans(order, e.bay, e.key, e.maxBays, 0);
    forall i | 0 <= i < |after| ensures TrimSpace(after[i]) == after[i] {
      PlacedMeans(order, e.bay, e.key, e.maxBays, i);
    }
  }

  /** The bay count of the last edit that did anything. */
  function LastMax(edits: seq<Edit>): Option<nat> {
    if edits == [] then None
    else if InRange(edits[|edits| - 1]) then Some(edits[|edits| - 1].maxBays)
    else LastMax(edits[..|edits| - 1])
  }

  /** Any run of edits, the bay count changing as it likes: no port is ever in two bays, and the list fits the bays of
      the last edit with no blanks at its end. */
  lemma {:induction false} EditorKeepsTidy(order: seq<Bytes>, edits: seq<Edit>)
    requires Distinct(order) && forall i | 0 <= i < |edits| :: TrimSpace(edits[i].key) == edits[i].key
    ensures Distinct(Edited(order, edits))
    ensures LastMax(edits).Some? ==> Tidy(Edited(order, edits), LastMax(edits).value)
    decreases |edits|
  {
    hide TrimSpace, BayAt, Distinct;
    if edits != [] {
      var front, e := edits[..|edits| - 1], edits[|edits| - 1];
      EditorKeepsTidy(order, front);
      if InRange(e) {
        PlacedIsTidy(Edited(order, front), e);
      }
    }
  }

  method DefaultBayOrder(candidates: seq<Bytes>, maxBays: nat) returns (out: seq<Bytes>)
    ensures out == candidates[..if |candidates| <= maxBays then |candidates| else maxBays]
  {
    out := [];
    for i := 0 to |candidates|
      invariant out == candidates[..if i <= maxBays then i else maxBays]
    {
      if |out| >= maxBays {
        break;
      }
      out := out + [candidates[i]];
    }
  }

  // ----- the ports of one boot

  /** The ports of the SATA controllers, in order. */
  function Detected(cs: seq<Controller>): seq<SataPort>
    decreases |cs|
  {
    if cs == [] then []
    else (if cs[0].kind == Sata then PortsOf(cs[0].pcieRoot, cs[0].ports) else []) + Detected(cs[1..])
  }

  function PortsOf(root: Bytes, ports: seq<Port>): (r: seq<SataPort>)
    ensures |r| == |ports|
  {
    seq(|ports|, i requires 0 <= i < |ports| => SataPort(root, ports[i].index))
  }

  lemma NoneDetected()
    ensures Detected([]) == []
  {
  }

  lemma DetectedFrom(cs: seq<Controller>, i: nat)
    requires i < |cs|
    ensures Detected(cs[i..])
            == (if cs[i].kind == Sata then PortsOf(cs[i].pcieRoot, cs[i].ports) else []) + Detected(cs[i + 1..])
  {
    hide PortsOf;
    assert cs[i..][1..] == cs[i + 1..];
  }

  method PortsUnder(root: Bytes, ports: seq<Port>) returns (out: seq<SataPort>)
    ensures out == PortsOf(root, ports)
  {
    out := [];
    for k := 0 to |ports|
      invariant out == PortsOf(root, ports)[..k]
    {
      out := out + [SataPort(root, ports[k].index)];
    }
  }

  method BayOrder(cs: seq<Controller>) returns (out: seq<SataPort>)
    ensures out == Detected(cs)
  {
    hide PortsOf, Detected;
    out := [];
    assert cs[0..] == cs && cs[|cs|..] == [];
    NoneDetected();
    for i := 0 to |cs|
      invariant out + Detected(cs[i..]) == Detected(cs)
    {
      ghost var before := out;
      DetectedFrom(cs, i);
      if cs[i].kind == Sata {
        var ports := PortsUnder(cs[i].pcieRoot, cs[i].ports);
        out := out + ports;
      }
      assert out + Detected(cs[i + 1..]) == before + Detected(cs[i..]);
    }
  }

  /** How many ports the SATA controllers before the i-th have. */
  function PortsBefore(cs: seq<Controller>, i: nat): nat
    requires i <= |cs|
  {
    if i == 0 then 0 else PortsBefore(cs, i - 1) + if cs[i - 1].kind == Sata then |cs[i - 1].ports| else 0
  }

  lemma {:induction false} DetectedAppend(a: seq<Controller>, b: seq<Controller>)
    ensures Detected(a + b) == Detected(a) + Detected(b)
    decreases |a|
  {
    hide PortsOf;
    if a == [] {
      assert a + b == b;
    } else {
      assert (a + b)[1..] == a[1..] + b;
      DetectedAppend(a[1..], b);
    }
  }

  lemma {:induction false} DetectedCount(cs: seq<Controller>, i: nat)
    requires i <= |cs|
    ensures |Detected(cs[..i])| == PortsBefore(cs, i)
    decreases i
  {
    hide Detected, PortsOf;
    if i == 0 {
      NoneDetected();
    } else {
      DetectedCount(cs, i - 1);
      assert cs[..i] == cs[..i - 1] + [cs[i - 1]];
      DetectedAppend(cs[..i - 1], [cs[i - 1]]);
      DetectedFrom([cs[i - 1]], 0);
      assert [cs[i - 1]][0..] == [cs[i - 1]] && [cs[i - 1]][1..] == [];
      NoneDetected();
    }
  }

  /** Port j of the i-th controller stands behind the ports of the SATA controllers before it, and no other ports are
      there. */
  lemma DetectedAt(cs: seq<Controller>, i: nat, j: nat)
    requires i < |cs| && cs[i].kind == Sata && j < |cs[i].ports|
    ensures |Detected(cs)| == PortsBefore(cs, |cs|) && PortsBefore(cs, i) + j < |Detected(cs)|
    ensures Detected(cs)[PortsBefore(cs, i) + j] == SataPort(cs[i].pcieRoot, cs[i].ports[j].index)
  {
    hide Detected;
    DetectedCount(cs, |cs|);
    assert cs[..|cs|] == cs;
    DetectedCount(cs, i);
    assert cs == cs[..i] + cs[i..];
    DetectedAppend(cs[..i], cs[i..]);
    DetectedFrom(cs, i);
  }

  /** The text that identifies a port. */
  function SlashKey(p: SataPort): Bytes { p.pcieRoot + [47] + Itoa(p.port) }

  function TrailingDigits(s: Bytes): nat {
    if s != [] && IsDigit(s[|s| - 1]) then 1 + TrailingDigits(s[..|s| - 1]) else 0
  }

  lemma {:induction false} DigitsAfterSlash(root: Bytes, digits: Bytes)
    requires AllDigits(digits)
    ensures TrailingDigits(root + [47] + digits) == |digits|
    decreases |digits|
  {
    var s := root + [47] + digits;
    if digits != [] {
      assert s[..|s| - 1] == root + [47] + digits[..|digits| - 1];
      DigitsAfterSlash(root, digits[..|digits| - 1]);
    }
  }

  lemma SlashKeyTellsPortsApart(p: SataPort, q: SataPort)
    requires SlashKey(p) == SlashKey(q)
    ensures p == q
  {
    hide Itoa, TrailingDigits, DigitsValue;
    var a, b, s := Itoa(p.port), Itoa(q.port), SlashKey(p);
    DigitsAfterSlash(p.pcieRoot, a);
    DigitsAfterSlash(q.pcieRoot, b);
    assert a == s[|s| - |a|..] && b == s[|s| - |b|..];
    assert p.pcieRoot == s[..|s| - |a| - 1] && q.pcieRoot == s[..|s| - |b| - 1];
    ItoaReadsBack(p.port);
    ItoaReadsBack(q.port);
  }

  /** The planned ports that are there, in the order of the plan. */
  function Present(plan: seq<SataPort>, found: seq<SataPort>): seq<SataPort>
    decreases |plan|
  {
    if plan == [] then [] else IfThere(plan[0], found) + Present(plan[1..], found)
  }

  function IfThere(p: SataPort, found: seq<SataPort>): seq<SataPort> { if p in found then [p] else [] }

  lemma {:induction false} PresentAreFound(plan: seq<SataPort>, found: seq<SataPort>)
    ensures forall p | p in Present(plan, found) :: p in found
    decreases |plan|
  {
    if plan != [] {
      PresentAreFound(plan[1..], found);
    }
  }

  function ApplyPlan(plan: seq<SataPort>, found: seq<SataPort>): seq<SataPort> {
    if plan == [] then found else Present(plan, found)
  }

  ghost predicate KeysOfAll(have: set<Bytes>, found: seq<SataPort>) {
    forall k :: k in have <==> exists j | 0 <= j < |found| :: SlashKey(found[j]) == k
  }

  method FoundKeys(found: seq<SataPort>) returns (have: set<Bytes>)
    ensures KeysOfAll(have, found)
  {
    hide SlashKey;
    have := {};
    for i := 0 to |found|
      invariant forall k :: k in have <==> exists j | 0 <= j < i :: SlashKey(found[j]) == k
    {
      have := have + {SlashKey(found[i])};
    }
  }

  method ApplyBayPlan(plan: seq<SataPort>, found: seq<SataPort>) returns (out: seq<SataPort>)
    ensures out == ApplyPlan(plan, found)
  {
    hide SlashKey, KeysOfAll, Present;
    if plan == [] {
      return found;
    }
    var have := FoundKeys(found);
    out := [];
    assert plan[0..] == plan && plan[|plan|..] == [];
    NonePresent(found);
    for i := 0 to |plan|
      invariant out + Present(plan[i..], found) == Present(plan, found)
    {
      HaveIsFound(have, found, plan[i]);
      ghost var before := out;
      if SlashKey(plan[i]) in have {
        out := out + [plan[i]];
      }
      PresentFrom(plan, found, i);
      assert out + Present(plan[i + 1..], found) == before + Present(plan[i..], found);
    }
  }

  lemma NonePresent(found: seq<SataPort>)
    ensures Present([], found) == []
  {
  }

  lemma PresentFrom(plan: seq<SataPort>, found: seq<SataPort>, i: nat)
    requires i < |plan|
    ensures Present(plan[i..], found) == IfThere(plan[i], found) + Present(plan[i + 1..], found)
  {
    hide IfThere;
    assert plan[i..][1..] == plan[i + 1..];
  }

  lemma HaveIsFound(have: set<Bytes>, found: seq<SataPort>, p: SataPort)
    requires KeysOfAll(have, found)
    ensures SlashKey(p) in have <==> p in found
  {
    hide SlashKey;
    if SlashKey(p) in have {
      var j :| 0 <= j < |found| && SlashKey(found[j]) == SlashKey(p);
      SlashKeyTellsPortsApart(found[j], p);
    }
    if p in found {
      var j :| 0 <= j < |found| && found[j] == p;
      assert SlashKey(found[j]) == SlashKey(p);
    }
  }

  /** The ports of a boot with this plan file, if there is one. */
  function BootPorts(plan: Option<Bytes>, cs: seq<Controller>): seq<SataPort> {
    if plan.None? then Detected(cs) else ApplyPlan(ReadPorts(plan.value), Detected(cs))
  }

  /** mapDiskBays before it touches the device trees: the ports, and the file that hands them on. */
  method MapDiskBays(plan: Option<Bytes>, cs: seq<Controller>) returns (ports: Option<seq<SataPort>>, saved: Bytes)
    ensures ports == if BootPorts(plan, cs) == [] then None else Some(BootPorts(plan, cs))
    ensures ports.Some? ==> saved == SavedPorts(ports.value)
  {
    hide ReadPorts, SavedPorts;
    var found := BayOrder(cs);
    var wanted: seq<SataPort> := [];
    if plan.Some? {
      wanted := ParsePortLines(plan.value);
    }
    if wanted != [] {
      found := ApplyBayPlan(wanted, found);
    }
    if found == [] {
      return None, [];
    }
    saved := SavePorts(found);
    return Some(found), saved;
  }

  function LoadedPorts(text: Bytes): Option<seq<SataPort>> {
    if ReadPorts(text) == [] then None else Some(ReadPorts(text))
  }

  // ----- from the editor to both trees

  predicate RootsOk(cs: seq<Controller>) { forall i | 0 <= i < |cs| :: RootOk(cs[i].pcieRoot) }

  lemma {:induction false} DetectedRootsOk(cs: seq<Controller>)
    requires RootsOk(cs)
    ensures forall p | p in Detected(cs) :: RootOk(p.pcieRoot)
    decreases |cs|
  {
    hide RootOk;
    if cs != [] {
      DetectedRootsOk(cs[1..]);
    }
  }

  /** The installed system gets the very ports the ramdisk worked out. */
  lemma InstalledGetsTheSamePorts(plan: Option<Bytes>, cs: seq<Controller>)
    requires RootsOk(cs) && BootPorts(plan, cs) != []
    ensures LoadedPorts(SavedPorts(BootPorts(plan, cs))) == Some(BootPorts(plan, cs))
  {
    hide ReadPorts, SavedPorts, RootOk, Detected, ParsePort;
    var ports := BootPorts(plan, cs);
    DetectedRootsOk(cs);
    if plan.Some? {
      PresentAreFound(ReadPorts(plan.value), Detected(cs));
    }
    forall i | 0 <= i < |ports| ensures RootOk(ports[i].pcieRoot) {
      assert ports[i] in Detected(cs);
    }
    SavedReadsBackExactly(ports);
  }

  /** How many of the entries name a port that is there. */
  function PresentCount(order: seq<Bytes>, found: seq<SataPort>): nat { |Present(ParsePorts(order), found)| }

  lemma {:induction false} PresentConcat(a: seq<SataPort>, b: seq<SataPort>, found: seq<SataPort>)
    ensures Present(a + b, found) == Present(a, found) + Present(b, found)
    decreases |a|
  {
    hide IfThere;
    if a == [] {
      assert a + b == b;
    } else {
      assert (a + b)[1..] == a[1..] + b;
      PresentConcat(a[1..], b, found);
    }
  }

  /** Entry i lands in the bay numbered by the entries before it that are there. */
  lemma EntryLands(order: seq<Bytes>, found: seq<SataPort>, i: nat)
    requires i < |order| && ParsePort(order[i]).Some? && ParsePort(order[i]).value in found
    ensures var k, ports := PresentCount(order[..i], found), Present(ParsePorts(order), found);
            k < |ports| && ports[k] == ParsePort(order[i]).value
  {
    hide ParsePort, ParsePorts;
    var before, after := ParsePorts(order[..i]), ParsePorts(order[i + 1..]);
    var p := ParsePort(order[i]).value;
    assert order == order[..i] + ([order[i]] + order[i + 1..]);
    ParsePortsConcat(order[..i], [order[i]] + order[i + 1..]);
    ParsePortsConcat([order[i]], order[i + 1..]);
    OneLineParses(order[i]);
    PresentConcat(before, [p] + after, found);
    PresentConcat([p], after, found);
    PresentOne(p, found);
  }

  lemma PresentOne(p: SataPort, found: seq<SataPort>)
    ensures Present([p], found) == if p in found then [p] else []
  {
    assert [p][1..] == [];
    assert Present([], found) == [];
  }

  predicate IsThere(entry: Bytes, found: seq<SataPort>) { ParsePort(entry).Some? && ParsePort(entry).value in found }

  /** No bay is left out before entry i exactly when every entry before it names a port that is there. */
  lemma {:induction false} CountIsFull(order: seq<Bytes>, found: seq<SataPort>, i: nat)
    requires i <= |order|
    ensures PresentCount(order[..i], found) <= i
    ensures PresentCount(order[..i], found) == i <==> forall j | 0 <= j < i :: IsThere(order[j], found)
  {
    hide ParsePort, ParsePorts;
    NoPorts();
    if i > 0 {
      CountIsFull(order, found, i - 1);
      assert order[..i] == order[..i - 1] + [order[i - 1]];
      ParsePortsConcat(order[..i - 1], [order[i - 1]]);
      OneLineParses(order[i - 1]);
      PresentConcat(ParsePorts(order[..i - 1]), ParsePorts([order[i - 1]]), found);
      if ParsePort(order[i - 1]).Some? {
        PresentOne(ParsePort(order[i - 1]).value, found);
      }
    } else {
      assert order[..0] == [];
    }
  }

  /** The command line starts from the place of the entry: blank ones keep theirs. */
  lemma {:induction false} BayMapIsPositional(order: seq<Bytes>, i: nat)
    requires Distinct(order) && i < |order| && BayAt(order, i) != []
    ensures BayAt(order, i) in BayMap(order) && BayMap(order)[BayAt(order, i)] == i + 1
    decreases |order|
  {
    hide TrimSpace;
    var last := |order| - 1;
    if i < last {
      var front := order[..last];
      assert BayAt(order, last) != BayAt(order, i);
      forall a: nat, b: nat | a < b ensures BayAt(front, a) != [] ==> BayAt(front, a) != BayAt(front, b) {
        if b < last {
          assert BayAt(front, a) == BayAt(order, a) && BayAt(front, b) == BayAt(order, b);
        }
      }
      assert BayAt(front, i) == BayAt(order, i);
      BayMapIsPositional(front, i);
    }
  }
}
