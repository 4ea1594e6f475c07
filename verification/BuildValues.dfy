/** What the built command line says for each key: internal/cmdline/build.go. */
module BuildValues {
  import opened GoStrings
  import opened CommandLine
  import opened BuildLine
  import opened BuildChecks
  import DsmPolicy

  // ----- the value of a key after some steps

  function After(was: Option<Bytes>, steps: seq<Step>, key: Bytes): Option<Bytes>
    decreases |steps|
  {
    if steps == [] then was
    else ValueAfter(After(was, steps[..|steps| - 1], key), steps[|steps| - 1], key)
  }

  lemma AfterNext(was: Option<Bytes>, steps: seq<Step>, s: Step, key: Bytes)
    ensures After(was, steps + [s], key) == ValueAfter(After(was, steps, key), s, key)
  {
    hide ValueAfter;
    assert (steps + [s])[..|steps|] == steps;
  }

  lemma {:induction false} ValueIsAfter(before: seq<Step>, steps: seq<Step>, key: Bytes)
    ensures Value(Applied(before + steps), key) == After(Value(Applied(before), key), steps, key)
    decreases |steps|
  {
    hide Value, Changed, ValueAfter;
    if steps == [] {
      assert before + steps == before;
    } else {
      var front, s := steps[..|steps| - 1], steps[|steps| - 1];
      ValueIsAfter(before, front, key);
      assert (before + steps)[..|before + steps| - 1] == before + front;
      StepMeans(Applied(before + front), s, key);
    }
  }

  lemma {:induction false} AfterConcat(was: Option<Bytes>, a: seq<Step>, b: seq<Step>, key: Bytes)
    ensures After(was, a + b, key) == After(After(was, a, key), b, key)
    decreases |b|
  {
    hide ValueAfter;
    if b == [] {
      assert a + b == a;
    } else {
      AfterConcat(was, a, b[..|b| - 1], key);
      assert (a + b)[..|a + b| - 1] == a + b[..|b| - 1];
    }
  }

  lemma {:induction false} AfterMissed(was: Option<Bytes>, steps: seq<Step>, key: Bytes)
    requires !Mentions(steps, key)
    ensures After(was, steps, key) == was
    decreases |steps|
  {
    if steps != [] {
      var front := steps[..|steps| - 1];
      assert forall i | 0 <= i < |front| :: front[i].key == steps[i].key;
      AfterMissed(was, front, key);
    }
  }

  /** The last step that puts the key decides. */
  lemma AfterPut(was: Option<Bytes>, a: seq<Step>, key: Bytes, value: Bytes, b: seq<Step>)
    requires !Mentions(b, key)
    ensures After(was, a + [Put(key, value)] + b, key) == Some(value)
  {
    hide After, Mentions;
    AfterConcat(was, a + [Put(key, value)], b, key);
    AfterNext(was, a, Put(key, value), key);
    AfterMissed(After(was, a + [Put(key, value)], key), b, key);
  }

  // ----- telling keys apart

  /** Length, first and last byte: no two of the fixed keys have the same. */
  datatype Tag = Tag(size: nat, first: int, last: int)

  function TagOf(key: Bytes): Tag {
    if key == [] then Tag(0, 0, 0) else Tag(|key|, key[0] as int, key[|key| - 1] as int)
  }

  function CharTag(size: nat, first: char, last: char): Tag { Tag(size, first as int, last as int) }

  lemma TagOfText(s: string)
    requires s != [] && forall i | 0 <= i < |s| :: 0 < s[i] as int < 128
    ensures TagOf(Ascii(s)) == CharTag(|s|, s[0], s[|s| - 1])
  {
  }

  /** No later step has a key with the tag of this one. */
  predicate TagIsLast(steps: seq<Step>, i: nat)
    requires i < |steps|
  {
    forall j | i < j < |steps| :: TagOf(steps[j].key) != TagOf(steps[i].key)
  }

  lemma LastSays(was: Option<Bytes>, steps: seq<Step>, i: nat)
    requires i < |steps| && TagIsLast(steps, i) && steps[i].Put?
    ensures After(was, steps, steps[i].key) == Some(steps[i].value)
  {
    hide TagOf, After;
    var b := steps[i + 1..];
    assert forall j | 0 <= j < |b| :: b[j] == steps[i + 1 + j];
    AfterPut(was, steps[..i], steps[i].key, steps[i].value, b);
    assert steps == steps[..i] + [Put(steps[i].key, steps[i].value)] + b;
  }

  // ----- the sections of the build

  datatype Request = Request(cfg: Config, plat: Platform, major: nat, id: Identity, policy: StoragePolicy)

  const SECTIONS: nat := 8

  /** The steps of one section, in the order of the build. */
  function Section(r: Request, k: nat): seq<Step> {
    if k == 0 then IdentitySteps(r.cfg.model, r.id)
    else if k == 1 then ConsoleSteps()
    else if k == 2 then LogSteps(r.cfg.panic)
    else if k == 3 then KernelSteps(r.major)
    else if k == 4 then DiskSteps(r.cfg.ncq, r.plat)
    else if k == 5 then PolicySteps(r.policy)
    else if k == 6 then PowerSteps(r.plat)
    else if k == 7 then BlacklistSteps(r.cfg.blacklist)
    else []
  }

  function FirstSections(r: Request, n: nat): seq<Step> {
    if n == 0 then [] else FirstSections(r, n - 1) + Section(r, n - 1)
  }

  lemma {:induction false} SectionsAreBase(r: Request)
    ensures FirstSections(r, SECTIONS)
            == IdentitySteps(r.cfg.model, r.id) + FixedSteps(r.cfg, r.plat, r.major, r.policy)
  {
    hide IdentitySteps, ConsoleSteps, LogSteps, KernelSteps, DiskSteps, PolicySteps, PowerSteps, BlacklistSteps;
    hide FirstSections;
    FirstStep(r, 0);
    FirstStep(r, 1);
    FirstStep(r, 2);
    FirstStep(r, 3);
    FirstStep(r, 4);
    FirstStep(r, 5);
    FirstStep(r, 6);
    FirstStep(r, 7);
    assert FirstSections(r, 0) == [] by { NoSections(r); }
  }

  lemma NoSections(r: Request)
    ensures FirstSections(r, 0) == []
  {
  }

  lemma FirstStep(r: Request, n: nat)
    ensures FirstSections(r, n + 1) == FirstSections(r, n) + Section(r, n)
  {
    hide Section;
  }

  /** mac and a number. */
  predicate CardTag(t: Tag) { t.first == 'm' as int && '0' as int <= t.last <= '9' as int }

  predicate IdentityTag(t: Tag) {
    || CardTag(t) || t == CharTag(15, 's', 'n') || t == CharTag(2, 's', 'n') || t == CharTag(9, 'n', 'm')
    || t == CharTag(26, 's', 's') || t == CharTag(21, 'v', 'n')
  }

  predicate ConsoleTag(t: Tag) { t == CharTag(11, 'e', 'k') || t == CharTag(8, 'e', 'n') || t == CharTag(7, 'c', 'e') }

  predicate LogTag(t: Tag) {
    || t == CharTag(8, 'l', 'l') || t == CharTag(11, 'l', 'n') || t == CharTag(5, 'p', 'c')
    || t == CharTag(10, 'n', 'g') || t == CharTag(4, 'r', 't') || t == CharTag(8, 'r', 't')
  }

  predicate KernelTag(t: Tag) { t == CharTag(17, 's', 't') || t == CharTag(18, 'm', 'e') || t == CharTag(10, 'H', 'g') }

  predicate DiskTag(t: Tag) {
    || t == CharTag(12, 'l', 'e') || t == CharTag(10, 's', '0') || t == CharTag(10, 's', '1')
    || t == CharTag(20, 'S', 'r') || t == CharTag(15, 's', 't') || t == CharTag(20, 's', 'q')
  }

  predicate PolicyTag(t: Tag) { t == CharTag(11, 'S', 'p') || t == CharTag(10, 'D', 'p') || t == CharTag(10, 's', 'p') }

  predicate PowerTag(t: Tag) { t == CharTag(9, 'p', 'm') || t == CharTag(11, 'i', 'u') || t == CharTag(18, 'i', 't') }

  /** The section a key belongs to. */
  function Kind(t: Tag): nat {
    if IdentityTag(t) then 0
    else if ConsoleTag(t) then 1
    else if LogTag(t) then 2
    else if KernelTag(t) then 3
    else if DiskTag(t) then 4
    else if PolicyTag(t) then 5
    else if PowerTag(t) then 6
    else if t == CharTag(18, 'm', 't') then 7
    else 8
  }

  predicate OfKind(steps: seq<Step>, k: nat) { forall i | 0 <= i < |steps| :: Kind(TagOf(steps[i].key)) == k }

  lemma OtherKind(steps: seq<Step>, k: nat, key: Bytes)
    requires OfKind(steps, k) && Kind(TagOf(key)) != k
    ensures !Mentions(steps, key)
  {
    hide TagOf, Kind;
  }

  // ----- every step is of the kind of its section

  lemma EarlyprintkKind()
    ensures TagOf(Ascii("earlyprintk")) == CharTag(11, 'e', 'k') && Kind(TagOf(Ascii("earlyprintk"))) == 1
  {
    hide TagOf;
    TagOfText("earlyprintk");
  }

  lemma EarlyconKind()
    ensures TagOf(Ascii("earlycon")) == CharTag(8, 'e', 'n') && Kind(TagOf(Ascii("earlycon"))) == 1
  {
    hide TagOf;
    TagOfText("earlycon");
  }

  lemma ConsoleKind()
    ensures TagOf(Ascii("console")) == CharTag(7, 'c', 'e') && Kind(TagOf(Ascii("console"))) == 1
  {
    hide TagOf;
    TagOfText("console");
  }

  lemma LoglevelKind()
    ensures TagOf(Ascii("loglevel")) == CharTag(8, 'l', 'l') && Kind(TagOf(Ascii("loglevel"))) == 2
  {
    hide TagOf;
    TagOfText("loglevel");
  }

  lemma LogBufLenKind()
    ensures TagOf(Ascii("log_buf_len")) == CharTag(11, 'l', 'n') && Kind(TagOf(Ascii("log_buf_len"))) == 2
  {
    hide TagOf;
    TagOfText("log_buf_len");
  }

  lemma PanicKind()
    ensures TagOf(Ascii("panic")) == CharTag(5, 'p', 'c') && Kind(TagOf(Ascii("panic"))) == 2
  {
    hide TagOf;
    TagOfText("panic");
  }

  lemma NowatchdogKind()
    ensures TagOf(Ascii("nowatchdog")) == CharTag(10, 'n', 'g') && Kind(TagOf(Ascii("nowatchdog"))) == 2
  {
    hide TagOf;
    TagOfText("nowatchdog");
  }

  lemma RootKind()
    ensures TagOf(Ascii("root")) == CharTag(4, 'r', 't') && Kind(TagOf(Ascii("root"))) == 2
  {
    hide TagOf;
    TagOfText("root");
  }

  lemma RootwaitKind()
    ensures TagOf(Ascii("rootwait")) == CharTag(8, 'r', 't') && Kind(TagOf(Ascii("rootwait"))) == 2
  {
    hide TagOf;
    TagOfText("rootwait");
  }

  lemma SplitLockDetectKind()
    ensures TagOf(Ascii("split_lock_detect")) == CharTag(17, 's', 't') && Kind(TagOf(Ascii("split_lock_detect"))) == 3
  {
    hide TagOf;
    TagOfText("split_lock_detect");
  }

  lemma ModuleSigEnforceKind()
    ensures TagOf(Ascii("module.sig_enforce")) == CharTag(18, 'm', 'e') && Kind(TagOf(Ascii("module.sig_enforce"))) == 3
  {
    hide TagOf;
    TagOfText("module.sig_enforce");
  }

  lemma HddHotplugKind()
    ensures TagOf(Ascii("HddHotplug")) == CharTag(10, 'H', 'g') && Kind(TagOf(Ascii("HddHotplug"))) == 3
  {
    hide TagOf;
    TagOfText("HddHotplug");
  }

  lemma LibataForceKind()
    ensures TagOf(Ascii("libata.force")) == CharTag(12, 'l', 'e') && Kind(TagOf(Ascii("libata.force"))) == 4
  {
    hide TagOf;
    TagOfText("libata.force");
  }

  lemma SynoTtyS0Kind()
    ensures TagOf(Ascii("syno_ttyS0")) == CharTag(10, 's', '0') && Kind(TagOf(Ascii("syno_ttyS0"))) == 4
  {
    hide TagOf;
    TagOfText("syno_ttyS0");
  }

  lemma SynoTtyS1Kind()
    ensures TagOf(Ascii("syno_ttyS1")) == CharTag(10, 's', '1') && Kind(TagOf(Ascii("syno_ttyS1"))) == 4
  {
    hide TagOf;
    TagOfText("syno_ttyS1");
  }

  lemma SMBusHddDynamicPowerKind()
    ensures TagOf(Ascii("SMBusHddDynamicPower")) == CharTag(20, 'S', 'r')
    ensures Kind(TagOf(Ascii("SMBusHddDynamicPower"))) == 4
  {
    hide TagOf;
    TagOfText("SMBusHddDynamicPower");
  }

  lemma SynoHddDetectKind()
    ensures TagOf(Ascii("syno_hdd_detect")) == CharTag(15, 's', 't') && Kind(TagOf(Ascii("syno_hdd_detect"))) == 4
  {
    hide TagOf;
    TagOfText("syno_hdd_detect");
  }

  lemma SynoHddPowerupSeqKind()
    ensures TagOf(Ascii("syno_hdd_powerup_seq")) == CharTag(20, 's', 'q')
    ensures Kind(TagOf(Ascii("syno_hdd_powerup_seq"))) == 4
  {
    hide TagOf;
    TagOfText("syno_hdd_powerup_seq");
  }

  lemma SataPortMapKind()
    ensures TagOf(Ascii("SataPortMap")) == CharTag(11, 'S', 'p') && Kind(TagOf(Ascii("SataPortMap"))) == 5
  {
    hide TagOf;
    TagOfText("SataPortMap");
  }

  lemma DiskIdxMapKind()
    ensures TagOf(Ascii("DiskIdxMap")) == CharTag(10, 'D', 'p') && Kind(TagOf(Ascii("DiskIdxMap"))) == 5
  {
    hide TagOf;
    TagOfText("DiskIdxMap");
  }

  lemma SataRemapKind()
    ensures TagOf(Ascii("sata_remap")) == CharTag(10, 's', 'p') && Kind(TagOf(Ascii("sata_remap"))) == 5
  {
    hide TagOf;
    TagOfText("sata_remap");
  }

  lemma PcieAspmKind()
    ensures TagOf(Ascii("pcie_aspm")) == CharTag(9, 'p', 'm') && Kind(TagOf(Ascii("pcie_aspm"))) == 6
  {
    hide TagOf;
    TagOfText("pcie_aspm");
  }

  lemma IntelIommuKind()
    ensures TagOf(Ascii("intel_iommu")) == CharTag(11, 'i', 'u') && Kind(TagOf(Ascii("intel_iommu"))) == 6
  {
    hide TagOf;
    TagOfText("intel_iommu");
  }

  lemma InitcallBlacklistKind()
    ensures TagOf(Ascii("initcall_blacklist")) == CharTag(18, 'i', 't') && Kind(TagOf(Ascii("initcall_blacklist"))) == 6
  {
    hide TagOf;
    TagOfText("initcall_blacklist");
  }

  lemma ModprobeBlacklistKind()
    ensures TagOf(Ascii("modprobe.blacklist")) == CharTag(18, 'm', 't') && Kind(TagOf(Ascii("modprobe.blacklist"))) == 7
  {
    hide TagOf;
    TagOfText("modprobe.blacklist");
  }

  lemma SynoHwVersionKind()
    ensures TagOf(Ascii("syno_hw_version")) == CharTag(15, 's', 'n') && Kind(TagOf(Ascii("syno_hw_version"))) == 0
  {
    hide TagOf;
    TagOfText("syno_hw_version");
  }

  lemma SnKind()
    ensures TagOf(Ascii("sn")) == CharTag(2, 's', 'n') && Kind(TagOf(Ascii("sn"))) == 0
  {
    hide TagOf;
    TagOfText("sn");
  }

  lemma NetifNumKind()
    ensures TagOf(Ascii("netif_num")) == CharTag(9, 'n', 'm') && Kind(TagOf(Ascii("netif_num"))) == 0
  {
    hide TagOf;
    TagOfText("netif_num");
  }

  lemma ConsolesKind()
    ensures OfKind(ConsoleSteps(), 1)
  {
    hide TagOf, Kind;
    EarlyprintkKind();
    EarlyconKind();
    ConsoleKind();
  }

  lemma LogKind(panic: int)
    ensures OfKind(LogSteps(panic), 2)
  {
    hide TagOf, Kind, IntText;
    LoglevelKind();
    LogBufLenKind();
    PanicKind();
    NowatchdogKind();
    RootKind();
    RootwaitKind();
  }

  lemma KernelKind(major: nat)
    ensures OfKind(KernelSteps(major), 3)
  {
    hide TagOf, Kind;
    SplitLockDetectKind();
    ModuleSigEnforceKind();
    HddHotplugKind();
  }

  lemma SerialKind()
    ensures OfKind(SerialSteps(), 4)
  {
    hide TagOf, Kind;
    SynoTtyS0Kind();
    SynoTtyS1Kind();
  }

  lemma DetectKind(name: Bytes)
    ensures OfKind(DetectSteps(name), 4)
  {
    hide TagOf, Kind, Broadwellnk;
    SMBusHddDynamicPowerKind();
    SynoHddDetectKind();
    SynoHddPowerupSeqKind();
  }

  lemma DiskKind(ncq: bool, plat: Platform)
    ensures OfKind(DiskSteps(ncq, plat), 4)
  {
    hide TagOf, Kind, SerialSteps, DetectSteps;
    LibataForceKind();
    SerialKind();
    DetectKind(plat.name);
  }

  lemma PolicyKind(p: StoragePolicy)
    ensures OfKind(PolicySteps(p), 5)
  {
    hide TagOf, Kind;
    SataPortMapKind();
    DiskIdxMapKind();
    SataRemapKind();
  }

  lemma PowerKind(plat: Platform)
    ensures OfKind(PowerSteps(plat), 6)
  {
    hide TagOf, Kind, Broadwellnk, Apollolake;
    PcieAspmKind();
    IntelIommuKind();
    InitcallBlacklistKind();
  }

  lemma BlacklistKind(modules: seq<Bytes>)
    ensures OfKind(BlacklistSteps(modules), 7)
  {
    hide TagOf, Kind;
    ModprobeBlacklistKind();
  }

  lemma CardKind(n: nat)
    ensures Kind(TagOf(MacKey(n))) == 0
  {
    hide Itoa;
    var k := MacKey(n);
    assert k[0] == 109;
    assert IsDigit(k[|k| - 1]) by {
      assert k[|k| - 1] == Itoa(n)[|Itoa(n)| - 1];
    }
  }

  lemma LongKind(a: string, b: string)
    requires a != [] && b != [] && forall i | 0 <= i < |a| :: 0 < a[i] as int < 128
    requires forall i | 0 <= i < |b| :: 0 < b[i] as int < 128
    requires Kind(CharTag(|a| + |b|, a[0], b[|b| - 1])) == 0
    ensures Kind(TagOf(Ascii(a) + Ascii(b))) == 0
  {
    hide Kind;
  }

  lemma AfterCardsKind(macs: seq<Bytes>)
    ensures OfKind(AfterCards(macs), 0)
  {
    hide TagOf, Indices, Join;
    LongKind("skip_vender_", "mac_interfaces");
    LongKind("vender_format_", "version");
  }

  lemma IdentityKind(model: Bytes, id: Identity)
    ensures OfKind(IdentitySteps(model, id), 0)
  {
    hide TagOf, Kind, MacKey, Itoa, AfterCards;
    SynoHwVersionKind();
    SnKind();
    NetifNumKind();
    forall i | 0 <= i < |id.macs| ensures Kind(TagOf(MacSteps(id.macs)[i].key)) == 0 {
      CardKind(i + 1);
    }
    AfterCardsKind(id.macs);
  }

  lemma SectionKind(r: Request, k: nat)
    ensures OfKind(Section(r, k), k)
  {
    hide OfKind, IdentitySteps, ConsoleSteps, LogSteps, KernelSteps, DiskSteps, PolicySteps, PowerSteps,
         BlacklistSteps;
    IdentityKind(r.cfg.model, r.id);
    ConsolesKind();
    LogKind(r.cfg.panic);
    KernelKind(r.major);
    DiskKind(r.cfg.ncq, r.plat);
    PolicyKind(r.policy);
    PowerKind(r.plat);
    BlacklistKind(r.cfg.blacklist);
    NothingOfKind(k);
  }

  lemma NothingOfKind(k: nat)
    ensures OfKind([], k)
  {
  }

  // ----- a section decides the keys of its kind

  lemma {:induction false} OneSectionDecides(r: Request, key: Bytes, n: nat)
    ensures var k := Kind(TagOf(key));
            After(None, FirstSections(r, n), key) == if k < n then After(None, Section(r, k), key) else None
    decreases n
  {
    hide After, Section, Kind, TagOf, OfKind, FirstSections;
    if n == 0 {
      NoSections(r);
      NothingSaid(key);
    } else {
      FirstStep(r, n - 1);
      OneSectionDecides(r, key, n - 1);
      var was := After(None, FirstSections(r, n - 1), key);
      AfterConcat(None, FirstSections(r, n - 1), Section(r, n - 1), key);
      SectionKind(r, n - 1);
      if Kind(TagOf(key)) != n - 1 {
        OtherKind(Section(r, n - 1), n - 1, key);
        AfterMissed(was, Section(r, n - 1), key);
      }
    }
  }

  lemma NothingSaid(key: Bytes)
    ensures After(None, [], key) == None
  {
  }

  /** What the built line says for a key: the user's entry, or else this. */
  predicate Says(r: Request, order: seq<Bytes>, key: Bytes, value: Option<Bytes>)
    requires DsmPolicy.KeyOrder(order, r.cfg.user.Keys)
  {
    Value(Applied(BuildSteps(r.cfg, r.plat, r.major, r.id, r.policy, order)), key)
    == if key in r.cfg.user then Some(r.cfg.user[key]) else value
  }

  lemma SectionSays(r: Request, order: seq<Bytes>, k: nat, key: Bytes)
    requires DsmPolicy.KeyOrder(order, r.cfg.user.Keys) && Kind(TagOf(key)) == k < SECTIONS
    ensures Says(r, order, key, After(None, Section(r, k), key))
  {
    hide BuildSteps, After, Section, Kind, TagOf, IdentitySteps, FixedSteps, FirstSections, Value, Applied,
         DsmPolicy.Ascending;
    var base := IdentitySteps(r.cfg.model, r.id) + FixedSteps(r.cfg, r.plat, r.major, r.policy);
    UserWins(r.cfg, r.plat, r.major, r.id, r.policy, order, key);
    NothingYet(key);
    ValueIsAfter([], base, key);
    assert [] + base == base;
    SectionsAreBase(r);
    OneSectionDecides(r, key, SECTIONS);
  }

  lemma NothingYet(key: Bytes)
    ensures Value(Applied([]), key) == None
  {
  }

  /** A key of none of the sections is the user's or nobody's. */
  lemma NobodySays(r: Request, order: seq<Bytes>, key: Bytes)
    requires DsmPolicy.KeyOrder(order, r.cfg.user.Keys) && Kind(TagOf(key)) >= SECTIONS
    ensures Says(r, order, key, None)
  {
    hide BuildSteps, After, Section, Kind, TagOf, IdentitySteps, FixedSteps, FirstSections, Value, Applied,
         DsmPolicy.Ascending;
    var base := IdentitySteps(r.cfg.model, r.id) + FixedSteps(r.cfg, r.plat, r.major, r.policy);
    UserWins(r.cfg, r.plat, r.major, r.id, r.policy, order, key);
    NothingYet(key);
    ValueIsAfter([], base, key);
    assert [] + base == base;
    SectionsAreBase(r);
    OneSectionDecides(r, key, SECTIONS);
  }

  /** A step that puts a value decides its key when no later step of the section has its tag. */
  lemma StepSays(r: Request, order: seq<Bytes>, k: nat, i: nat)
    requires DsmPolicy.KeyOrder(order, r.cfg.user.Keys) && k < SECTIONS
    requires i < |Section(r, k)| && TagIsLast(Section(r, k), i) && Section(r, k)[i].Put?
    ensures Says(r, order, Section(r, k)[i].key, Some(Section(r, k)[i].value))
  {
    hide BuildSteps, After, Section, Kind, TagOf, TagIsLast, Says, DsmPolicy.Ascending;
    SectionKind(r, k);
    SectionSays(r, order, k, Section(r, k)[i].key);
    LastSays(None, Section(r, k), i);
  }

  /** A key of the section that none of its steps names. */
  lemma NoStepSays(r: Request, order: seq<Bytes>, k: nat, key: Bytes)
    requires DsmPolicy.KeyOrder(order, r.cfg.user.Keys) && Kind(TagOf(key)) == k < SECTIONS
    requires !Mentions(Section(r, k), key)
    ensures Says(r, order, key, None)
  {
    hide BuildSteps, After, Section, Kind, TagOf, Says, Mentions, DsmPolicy.Ascending;
    SectionSays(r, order, k, key);
    AfterMissed(None, Section(r, k), key);
  }
}
