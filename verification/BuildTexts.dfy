/** What the command line handed to DSM says, key by key. */
module BuildTexts {
  import opened GoStrings
  import opened CommandLine
  import opened BuildLine
  import opened BuildChecks
  import opened BuildValues
  import DsmPolicy

  predicate Named(plat: Platform, name: string) { IsText(name) && plat.name == Ascii(name) }

  lemma NamesAreTexts(plat: Platform)
    ensures Named(plat, "broadwellnk") <==> plat.name == Broadwellnk()
    ensures Named(plat, "apollolake") <==> plat.name == Apollolake()
  {
  }

  /** The line has this value for the key, unless the user gives one. */
  predicate Gives(r: Request, order: seq<Bytes>, key: string, value: Bytes)
    requires DsmPolicy.KeyOrder(order, r.cfg.user.Keys)
  {
    IsText(key) && Says(r, order, Ascii(key), Some(value))
  }

  predicate Reads(r: Request, order: seq<Bytes>, key: string, value: string)
    requires DsmPolicy.KeyOrder(order, r.cfg.user.Keys)
  {
    IsText(key) && IsText(value) && Says(r, order, Ascii(key), Some(Ascii(value)))
  }

  /** A text too long for one literal. */
  predicate ReadsLong(r: Request, order: seq<Bytes>, key: string, value: string, more: string)
    requires DsmPolicy.KeyOrder(order, r.cfg.user.Keys)
  {
    IsText(key) && IsText(value) && IsText(more) && Says(r, order, Ascii(key), Some(Ascii(value) + Ascii(more)))
  }

  /** The key is on the line only if the user gives it. */
  predicate Lacks(r: Request, order: seq<Bytes>, key: string)
    requires DsmPolicy.KeyOrder(order, r.cfg.user.Keys)
  {
    IsText(key) && Says(r, order, Ascii(key), None)
  }

  lemma StepReads(r: Request, order: seq<Bytes>, k: nat, i: nat, key: string, value: string)
    requires DsmPolicy.KeyOrder(order, r.cfg.user.Keys) && k < SECTIONS
    requires i < |Section(r, k)| && TagIsLast(Section(r, k), i) && IsText(key) && IsText(value)
    requires Section(r, k)[i] == Put(Ascii(key), Ascii(value))
    ensures Reads(r, order, key, value)
  {
    hide Section, TagIsLast, Says, DsmPolicy.Ascending;
    StepSays(r, order, k, i);
  }

  /** Step i puts this text. */
  predicate IsPut(steps: seq<Step>, i: nat, key: string, value: string) {
    IsText(key) && IsText(value) && i < |steps| && steps[i] == Put(Ascii(key), Ascii(value))
  }

  predicate Lies(steps: seq<Step>, i: nat, key: string, value: string) {
    IsPut(steps, i, key, value) && TagIsLast(steps, i)
  }

  lemma LyingReads(r: Request, order: seq<Bytes>, k: nat, i: nat, key: string, value: string)
    requires DsmPolicy.KeyOrder(order, r.cfg.user.Keys) && k < SECTIONS && Lies(Section(r, k), i, key, value)
    ensures Reads(r, order, key, value)
  {
    hide Section, TagIsLast, Says, Reads, IsText, DsmPolicy.Ascending;
    StepReads(r, order, k, i, key, value);
  }

  lemma StepGives(r: Request, order: seq<Bytes>, k: nat, i: nat, key: string, value: Bytes)
    requires DsmPolicy.KeyOrder(order, r.cfg.user.Keys) && k < SECTIONS
    requires i < |Section(r, k)| && TagIsLast(Section(r, k), i) && IsText(key)
    requires Section(r, k)[i] == Put(Ascii(key), value)
    ensures Gives(r, order, key, value)
  {
    hide Section, TagIsLast, Says, DsmPolicy.Ascending;
    StepSays(r, order, k, i);
  }

  lemma LongStepReads(r: Request, order: seq<Bytes>, k: nat, i: nat, key: string, value: string, more: string)
    requires DsmPolicy.KeyOrder(order, r.cfg.user.Keys) && k < SECTIONS
    requires i < |Section(r, k)| && TagIsLast(Section(r, k), i) && IsText(key) && IsText(value) && IsText(more)
    requires Section(r, k)[i] == Put(Ascii(key), Ascii(value) + Ascii(more))
    ensures ReadsLong(r, order, key, value, more)
  {
    hide Section, TagIsLast, Says, DsmPolicy.Ascending;
    StepSays(r, order, k, i);
  }

  lemma NoStepReads(r: Request, order: seq<Bytes>, k: nat, key: string)
    requires DsmPolicy.KeyOrder(order, r.cfg.user.Keys) && k < SECTIONS
    requires IsText(key) && Kind(TagOf(Ascii(key))) == k && NoTag(Section(r, k), TagOf(Ascii(key)))
    ensures Lacks(r, order, key)
  {
    hide Section, TagOf, Kind, Says, DsmPolicy.Ascending;
    NoStepSays(r, order, k, Ascii(key));
  }

  predicate NoTag(steps: seq<Step>, t: Tag) { forall i | 0 <= i < |steps| :: TagOf(steps[i].key) != t }

  // ----- consoles, log and root file system

  lemma EarlyTagsLast()
    ensures TagIsLast(ConsoleSteps(), 0) && TagIsLast(ConsoleSteps(), 1)
  {
    hide TagOf, Kind;
    EarlyprintkKind();
    EarlyconKind();
    ConsoleKind();
  }

  lemma EarlyprintkReads(r: Request, order: seq<Bytes>)
    requires DsmPolicy.KeyOrder(order, r.cfg.user.Keys)
    ensures Reads(r, order, "earlyprintk", "")
  {
    hide TagIsLast, Says, Reads, DsmPolicy.Ascending;
    EarlyTagsLast();
    StepReads(r, order, 1, 0, "earlyprintk", "");
  }

  lemma EarlyconReads(r: Request, order: seq<Bytes>)
    requires DsmPolicy.KeyOrder(order, r.cfg.user.Keys)
    ensures ReadsLong(r, order, "earlycon", "uart8250,io,", "0x3f8,115200n8")
  {
    hide TagIsLast, Says, ReadsLong, DsmPolicy.Ascending;
    EarlyTagsLast();
    LongStepReads(r, order, 1, 1, "earlycon", "uart8250,io,", "0x3f8,115200n8");
  }

  lemma LogTagsLast(panic: int)
    ensures forall i | 0 <= i < 6 :: TagIsLast(LogSteps(panic), i)
  {
    hide TagOf, Kind, IntText;
    LoglevelKind();
    LogBufLenKind();
    PanicKind();
    NowatchdogKind();
    RootKind();
    RootwaitKind();
  }

  lemma LogReads(r: Request, order: seq<Bytes>)
    requires DsmPolicy.KeyOrder(order, r.cfg.user.Keys)
    ensures Reads(r, order, "loglevel", "15") && Reads(r, order, "log_buf_len", "32M")
    ensures Gives(r, order, "panic", IntText(r.cfg.panic))
  {
    hide TagIsLast, Says, Reads, Gives, IntText, DsmPolicy.Ascending;
    LogTagsLast(r.cfg.panic);
    StepReads(r, order, 2, 0, "loglevel", "15");
    StepReads(r, order, 2, 1, "log_buf_len", "32M");
    StepGives(r, order, 2, 2, "panic", IntText(r.cfg.panic));
  }

  lemma RootReads(r: Request, order: seq<Bytes>)
    requires DsmPolicy.KeyOrder(order, r.cfg.user.Keys)
    ensures Reads(r, order, "nowatchdog", "")
    ensures Reads(r, order, "root", "/dev/md0") && Reads(r, order, "rootwait", "")
  {
    hide TagIsLast, Says, Reads, Gives, IntText, DsmPolicy.Ascending;
    LogTagsLast(r.cfg.panic);
    StepReads(r, order, 2, 3, "nowatchdog", "");
    StepReads(r, order, 2, 4, "root", "/dev/md0");
    StepReads(r, order, 2, 5, "rootwait", "");
  }

  // ----- the kernel generation

  lemma KernelTagsLast(major: nat)
    ensures TagIsLast(KernelSteps(major), 0) && TagIsLast(KernelSteps(major), 1)
    ensures NoTag(KernelSteps(major), TagOf(Ascii(if major < 5 then "split_lock_detect" else "HddHotplug")))
  {
    hide TagOf, Kind;
    SplitLockDetectKind();
    ModuleSigEnforceKind();
    HddHotplugKind();
  }

  lemma SplitLockReads(r: Request, order: seq<Bytes>)
    requires DsmPolicy.KeyOrder(order, r.cfg.user.Keys)
    ensures if r.major >= 5 then Reads(r, order, "split_lock_detect", "off") else Lacks(r, order, "split_lock_detect")
  {
    hide TagIsLast, NoTag, TagOf, Kind, Says, Reads, Lacks, DsmPolicy.Ascending;
    KernelTagsLast(r.major);
    if r.major >= 5 {
      StepReads(r, order, 3, 0, "split_lock_detect", "off");
    } else {
      SplitLockDetectKind();
      NoStepReads(r, order, 3, "split_lock_detect");
    }
  }

  lemma HotplugReads(r: Request, order: seq<Bytes>)
    requires DsmPolicy.KeyOrder(order, r.cfg.user.Keys)
    ensures if r.major < 5 then Reads(r, order, "HddHotplug", "1") else Lacks(r, order, "HddHotplug")
  {
    hide TagIsLast, NoTag, TagOf, Kind, Says, Reads, Lacks, DsmPolicy.Ascending;
    KernelTagsLast(r.major);
    if r.major < 5 {
      StepReads(r, order, 3, 1, "HddHotplug", "1");
    } else {
      HddHotplugKind();
      NoStepReads(r, order, 3, "HddHotplug");
    }
  }

  lemma EnforceLies(major: nat)
    ensures Lies(KernelSteps(major), if major >= 5 then 1 else 0, "module.sig_enforce", "0")
  {
    hide TagIsLast, NoTag, TagOf, Kind;
    KernelTagsLast(major);
  }

  lemma EnforceReads(r: Request, order: seq<Bytes>)
    requires DsmPolicy.KeyOrder(order, r.cfg.user.Keys)
    ensures Reads(r, order, "module.sig_enforce", "0")
  {
    hide Lies, KernelSteps, Says, Reads, DsmPolicy.Ascending;
    EnforceLies(r.major);
    LyingReads(r, order, 3, if r.major >= 5 then 1 else 0, "module.sig_enforce", "0");
  }

  /** Split locks are let through on the 5.x kernels, disk hot plugging is asked for on the older ones. */
  lemma KernelReads(r: Request, order: seq<Bytes>)
    requires DsmPolicy.KeyOrder(order, r.cfg.user.Keys)
    ensures if r.major >= 5 then Reads(r, order, "split_lock_detect", "off") else Lacks(r, order, "split_lock_detect")
    ensures if r.major < 5 then Reads(r, order, "HddHotplug", "1") else Lacks(r, order, "HddHotplug")
    ensures Reads(r, order, "module.sig_enforce", "0")
  {
    hide Reads, Lacks, DsmPolicy.Ascending;
    SplitLockReads(r, order);
    HotplugReads(r, order);
    EnforceReads(r, order);
  }

  // ----- disks

  lemma PlainNcq(ncq: bool, plat: Platform)
    ensures !ncq ==> TagIsLast(DiskSteps(ncq, plat), 0)
    ensures ncq ==> NoTag(DiskSteps(ncq, plat), TagOf(Ascii("libata.force")))
  {
    hide TagOf, Kind, Broadwellnk;
    LibataForceKind();
    SynoTtyS0Kind();
    SynoTtyS1Kind();
    SMBusHddDynamicPowerKind();
    SynoHddDetectKind();
    SynoHddPowerupSeqKind();
  }

  lemma NcqReads(r: Request, order: seq<Bytes>)
    requires DsmPolicy.KeyOrder(order, r.cfg.user.Keys)
    ensures if r.cfg.ncq then Lacks(r, order, "libata.force") else Reads(r, order, "libata.force", "noncq")
  {
    hide TagIsLast, NoTag, TagOf, Kind, Says, Reads, Gives, Lacks, DsmPolicy.Ascending, DiskSteps;
    PlainNcq(r.cfg.ncq, r.plat);
    if r.cfg.ncq {
      LibataForceKind();
      NoStepReads(r, order, 4, "libata.force");
    } else {
      NcqFirst(r.plat);
      StepReads(r, order, 4, 0, "libata.force", "noncq");
    }
  }

  lemma NcqFirst(plat: Platform)
    ensures |DiskSteps(false, plat)| > 0 && DiskSteps(false, plat)[0] == Put(Ascii("libata.force"), Ascii("noncq"))
  {
    hide SerialSteps, DetectSteps;
  }

  lemma DiskTagsLast(ncq: bool, plat: Platform)
    ensures forall i | 0 <= i < |DiskSteps(ncq, plat)| :: TagIsLast(DiskSteps(ncq, plat), i)
  {
    hide TagOf, Kind, Broadwellnk;
    LibataForceKind();
    SynoTtyS0Kind();
    SynoTtyS1Kind();
    SMBusHddDynamicPowerKind();
    SynoHddDetectKind();
    SynoHddPowerupSeqKind();
  }

  lemma NoSerialTags(ncq: bool, plat: Platform)
    requires !plat.dt
    ensures NoTag(DiskSteps(ncq, plat), CharTag(10, 's', '0')) && NoTag(DiskSteps(ncq, plat), CharTag(10, 's', '1'))
  {
    hide TagOf, Kind, Broadwellnk;
    LibataForceKind();
    SMBusHddDynamicPowerKind();
    SynoHddDetectKind();
    SynoHddPowerupSeqKind();
  }

  lemma NoDetectTags(ncq: bool, plat: Platform)
    requires plat.dt
    ensures NoTag(DiskSteps(ncq, plat), CharTag(15, 's', 't')) && NoTag(DiskSteps(ncq, plat), CharTag(20, 's', 'q'))
  {
    hide TagOf, Kind;
    LibataForceKind();
    SynoTtyS0Kind();
    SynoTtyS1Kind();
  }

  lemma NoSMBusTag(ncq: bool, plat: Platform)
    requires plat.dt || plat.name != Broadwellnk()
    ensures NoTag(DiskSteps(ncq, plat), CharTag(20, 'S', 'r'))
  {
    hide TagOf, Kind, Broadwellnk;
    LibataForceKind();
    SynoTtyS0Kind();
    SynoTtyS1Kind();
    SynoHddDetectKind();
    SynoHddPowerupSeqKind();
  }

  lemma TtyS0Reads(r: Request, order: seq<Bytes>)
    requires DsmPolicy.KeyOrder(order, r.cfg.user.Keys)
    ensures if r.plat.dt then Reads(r, order, "syno_ttyS0", "serial,0x3f8") else Lacks(r, order, "syno_ttyS0")
  {
    hide TagIsLast, NoTag, TagOf, Kind, Says, Reads, Gives, Lacks, DsmPolicy.Ascending;
    if r.plat.dt {
      DiskTagsLast(r.cfg.ncq, r.plat);
      StepReads(r, order, 4, (if r.cfg.ncq then 0 else 1), "syno_ttyS0", "serial,0x3f8");
    } else {
      SynoTtyS0Kind();
      NoSerialTags(r.cfg.ncq, r.plat);
      NoStepReads(r, order, 4, "syno_ttyS0");
    }
  }

  lemma TtyS1Reads(r: Request, order: seq<Bytes>)
    requires DsmPolicy.KeyOrder(order, r.cfg.user.Keys)
    ensures if r.plat.dt then Reads(r, order, "syno_ttyS1", "serial,0x2f8") else Lacks(r, order, "syno_ttyS1")
  {
    hide TagIsLast, NoTag, TagOf, Kind, Says, Reads, Gives, Lacks, DsmPolicy.Ascending;
    if r.plat.dt {
      DiskTagsLast(r.cfg.ncq, r.plat);
      StepReads(r, order, 4, (if r.cfg.ncq then 0 else 1) + 1, "syno_ttyS1", "serial,0x2f8");
    } else {
      SynoTtyS1Kind();
      NoSerialTags(r.cfg.ncq, r.plat);
      NoStepReads(r, order, 4, "syno_ttyS1");
    }
  }

  lemma SMBusPut(name: Bytes)
    requires name == Broadwellnk()
    ensures IsPut(DetectSteps(name), 0, "SMBusHddDynamicPower", "1")
  {
    hide Broadwellnk;
  }

  lemma DetectPut(name: Bytes)
    ensures IsPut(DetectSteps(name), if name == Broadwellnk() then 1 else 0, "syno_hdd_detect", "0")
  {
    hide Broadwellnk;
  }

  lemma PowerupSeqPut(name: Bytes)
    ensures IsPut(DetectSteps(name), if name == Broadwellnk() then 2 else 1, "syno_hdd_powerup_seq", "0")
  {
    hide Broadwellnk;
  }

  lemma DetectLies(ncq: bool, plat: Platform, i: nat, key: string, value: string)
    requires !plat.dt && IsPut(DetectSteps(plat.name), i, key, value)
    ensures Lies(DiskSteps(ncq, plat), (if ncq then 0 else 1) + i, key, value)
  {
    hide TagIsLast, DetectSteps, IsText;
    DiskTagsLast(ncq, plat);
    assert DiskSteps(ncq, plat)[(if ncq then 0 else 1) + i] == DetectSteps(plat.name)[i];
  }

  lemma DetectStepReads(r: Request, order: seq<Bytes>, i: nat, key: string, value: string)
    requires DsmPolicy.KeyOrder(order, r.cfg.user.Keys)
    requires !r.plat.dt && IsPut(DetectSteps(r.plat.name), i, key, value)
    ensures Reads(r, order, key, value)
  {
    hide Lies, IsPut, DiskSteps, DetectSteps, Reads, DsmPolicy.Ascending;
    DetectLies(r.cfg.ncq, r.plat, i, key, value);
    LyingReads(r, order, 4, (if r.cfg.ncq then 0 else 1) + i, key, value);
  }

  lemma SMBusReads(r: Request, order: seq<Bytes>)
    requires DsmPolicy.KeyOrder(order, r.cfg.user.Keys)
    ensures if !r.plat.dt && Named(r.plat, "broadwellnk") then Reads(r, order, "SMBusHddDynamicPower", "1")
            else Lacks(r, order, "SMBusHddDynamicPower")
  {
    hide Named, IsPut, DetectSteps, Broadwellnk, NoTag, TagOf, Kind, Says, Reads, Lacks, DsmPolicy.Ascending;
    NamesAreTexts(r.plat);
    if !r.plat.dt && r.plat.name == Broadwellnk() {
      SMBusPut(r.plat.name);
      DetectStepReads(r, order, 0, "SMBusHddDynamicPower", "1");
    } else {
      SMBusHddDynamicPowerKind();
      NoSMBusTag(r.cfg.ncq, r.plat);
      NoStepReads(r, order, 4, "SMBusHddDynamicPower");
    }
  }

  lemma DetectReads(r: Request, order: seq<Bytes>)
    requires DsmPolicy.KeyOrder(order, r.cfg.user.Keys)
    ensures if r.plat.dt then Lacks(r, order, "syno_hdd_detect") else Reads(r, order, "syno_hdd_detect", "0")
  {
    hide IsPut, DetectSteps, Broadwellnk, NoTag, TagOf, Kind, Says, Reads, Lacks, DsmPolicy.Ascending;
    if r.plat.dt {
      SynoHddDetectKind();
      NoDetectTags(r.cfg.ncq, r.plat);
      NoStepReads(r, order, 4, "syno_hdd_detect");
    } else {
      DetectPut(r.plat.name);
      DetectStepReads(r, order, if r.plat.name == Broadwellnk() then 1 else 0, "syno_hdd_detect", "0");
    }
  }

  lemma PowerupSeqReads(r: Request, order: seq<Bytes>)
    requires DsmPolicy.KeyOrder(order, r.cfg.user.Keys)
    ensures if r.plat.dt then Lacks(r, order, "syno_hdd_powerup_seq") else Reads(r, order, "syno_hdd_powerup_seq", "0")
  {
    hide IsPut, DetectSteps, Broadwellnk, NoTag, TagOf, Kind, Says, Reads, Lacks, DsmPolicy.Ascending;
    if r.plat.dt {
      SynoHddPowerupSeqKind();
      NoDetectTags(r.cfg.ncq, r.plat);
      NoStepReads(r, order, 4, "syno_hdd_powerup_seq");
    } else {
      PowerupSeqPut(r.plat.name);
      DetectStepReads(r, order, if r.plat.name == Broadwellnk() then 2 else 1, "syno_hdd_powerup_seq", "0");
    }
  }

  /** The serial ports on a platform with a device tree, the disk power settings on the others. */
  lemma DiskReads(r: Request, order: seq<Bytes>)
    requires DsmPolicy.KeyOrder(order, r.cfg.user.Keys)
    ensures if r.cfg.ncq then Lacks(r, order, "libata.force") else Reads(r, order, "libata.force", "noncq")
    ensures if r.plat.dt then Reads(r, order, "syno_ttyS0", "serial,0x3f8") else Lacks(r, order, "syno_ttyS0")
    ensures if r.plat.dt then Reads(r, order, "syno_ttyS1", "serial,0x2f8") else Lacks(r, order, "syno_ttyS1")
    ensures if !r.plat.dt && Named(r.plat, "broadwellnk") then Reads(r, order, "SMBusHddDynamicPower", "1")
            else Lacks(r, order, "SMBusHddDynamicPower")
    ensures if r.plat.dt then Lacks(r, order, "syno_hdd_detect") else Reads(r, order, "syno_hdd_detect", "0")
    ensures if r.plat.dt then Lacks(r, order, "syno_hdd_powerup_seq") else Reads(r, order, "syno_hdd_powerup_seq", "0")
  {
    hide Named, Reads, Lacks, DsmPolicy.Ascending;
    NcqReads(r, order);
    TtyS0Reads(r, order);
    TtyS1Reads(r, order);
    SMBusReads(r, order);
    DetectReads(r, order);
    PowerupSeqReads(r, order);
  }

  // ----- the disk map

  lemma PolicyTagsLast(p: StoragePolicy)
    ensures forall i | 0 <= i < |PolicySteps(p)| :: TagIsLast(PolicySteps(p), i)
    ensures p.portmap == [] ==>
              NoTag(PolicySteps(p), CharTag(11, 'S', 'p')) && NoTag(PolicySteps(p), CharTag(10, 'D', 'p'))
    ensures p.portmap != [] || !p.useRemap ==> NoTag(PolicySteps(p), CharTag(10, 's', 'p'))
  {
    hide TagOf, Kind;
    SataPortMapKind();
    DiskIdxMapKind();
    SataRemapKind();
  }

  lemma SataPortMapGives(r: Request, order: seq<Bytes>)
    requires DsmPolicy.KeyOrder(order, r.cfg.user.Keys)
    ensures if r.policy.portmap != [] then Gives(r, order, "SataPortMap", r.policy.portmap)
            else Lacks(r, order, "SataPortMap")
  {
    hide TagIsLast, NoTag, TagOf, Kind, Says, Reads, Gives, Lacks, DsmPolicy.Ascending;
    PolicyTagsLast(r.policy);
    if r.policy.portmap != [] {
      StepGives(r, order, 5, 0, "SataPortMap", r.policy.portmap);
    } else {
      SataPortMapKind();
      NoStepReads(r, order, 5, "SataPortMap");
    }
  }

  lemma DiskIdxMapGives(r: Request, order: seq<Bytes>)
    requires DsmPolicy.KeyOrder(order, r.cfg.user.Keys)
    ensures if r.policy.portmap != [] then Gives(r, order, "DiskIdxMap", r.policy.idxMap)
            else Lacks(r, order, "DiskIdxMap")
  {
    hide TagIsLast, NoTag, TagOf, Kind, Says, Reads, Gives, Lacks, DsmPolicy.Ascending;
    PolicyTagsLast(r.policy);
    if r.policy.portmap != [] {
      StepGives(r, order, 5, 1, "DiskIdxMap", r.policy.idxMap);
    } else {
      DiskIdxMapKind();
      NoStepReads(r, order, 5, "DiskIdxMap");
    }
  }

  lemma RemapGives(r: Request, order: seq<Bytes>)
    requires DsmPolicy.KeyOrder(order, r.cfg.user.Keys)
    ensures if r.policy.portmap == [] && r.policy.useRemap then Gives(r, order, "sata_remap", r.policy.remap)
            else Lacks(r, order, "sata_remap")
  {
    hide TagIsLast, NoTag, TagOf, Kind, Says, Reads, Gives, Lacks, DsmPolicy.Ascending;
    PolicyTagsLast(r.policy);
    if r.policy.portmap == [] && r.policy.useRemap {
      StepGives(r, order, 5, 0, "sata_remap", r.policy.remap);
    } else {
      SataRemapKind();
      NoStepReads(r, order, 5, "sata_remap");
    }
  }

  /** A port map comes with its disk index map; only without one is there a remap. */
  lemma PolicyReads(r: Request, order: seq<Bytes>)
    requires DsmPolicy.KeyOrder(order, r.cfg.user.Keys)
    ensures if r.policy.portmap != [] then Gives(r, order, "SataPortMap", r.policy.portmap)
            else Lacks(r, order, "SataPortMap")
    ensures if r.policy.portmap != [] then Gives(r, order, "DiskIdxMap", r.policy.idxMap)
            else Lacks(r, order, "DiskIdxMap")
    ensures if r.policy.portmap == [] && r.policy.useRemap then Gives(r, order, "sata_remap", r.policy.remap)
            else Lacks(r, order, "sata_remap")
  {
    hide Gives, Lacks, DsmPolicy.Ascending;
    SataPortMapGives(r, order);
    DiskIdxMapGives(r, order);
    RemapGives(r, order);
  }

  // ----- power

  lemma PowerTagsLast(plat: Platform)
    ensures forall i | 0 <= i < |PowerSteps(plat)| :: TagIsLast(PowerSteps(plat), i)
    ensures plat.name != Apollolake() ==> NoTag(PowerSteps(plat), CharTag(11, 'i', 'u'))
    ensures plat.name != Broadwellnk() ==> NoTag(PowerSteps(plat), CharTag(18, 'i', 't'))
  {
    hide TagOf, Kind, Broadwellnk, Apollolake;
    PcieAspmKind();
    IntelIommuKind();
    InitcallBlacklistKind();
  }

  lemma AspmReads(r: Request, order: seq<Bytes>)
    requires DsmPolicy.KeyOrder(order, r.cfg.user.Keys)
    ensures Reads(r, order, "pcie_aspm", "off")
  {
    hide TagIsLast, NoTag, TagOf, Kind, Says, Reads, Gives, Lacks, DsmPolicy.Ascending, Broadwellnk, Apollolake;
    PowerTagsLast(r.plat);
    StepReads(r, order, 6, 0, "pcie_aspm", "off");
  }

  lemma IommuReads(r: Request, order: seq<Bytes>)
    requires DsmPolicy.KeyOrder(order, r.cfg.user.Keys)
    ensures if Named(r.plat, "apollolake") then Reads(r, order, "intel_iommu", "igfx_off")
            else Lacks(r, order, "intel_iommu")
  {
    hide Named, TagIsLast, NoTag, TagOf, Kind, Says, Reads, Gives, Lacks, DsmPolicy.Ascending, Broadwellnk;
    NamesAreTexts(r.plat);
    PowerTagsLast(r.plat);
    if r.plat.name == Apollolake() {
      StepReads(r, order, 6, 1, "intel_iommu", "igfx_off");
    } else {
      IntelIommuKind();
      NoStepReads(r, order, 6, "intel_iommu");
    }
  }

  lemma InitcallReads(r: Request, order: seq<Bytes>)
    requires DsmPolicy.KeyOrder(order, r.cfg.user.Keys)
    ensures if Named(r.plat, "broadwellnk") then Reads(r, order, "initcall_blacklist", "i2c_i801_init")
            else Lacks(r, order, "initcall_blacklist")
  {
    hide Named, TagIsLast, NoTag, TagOf, Kind, Says, Reads, Gives, Lacks, DsmPolicy.Ascending, Apollolake;
    NamesAreTexts(r.plat);
    PowerTagsLast(r.plat);
    if r.plat.name == Broadwellnk() {
      var i := |PowerSteps(r.plat)| - 1;
      StepReads(r, order, 6, i, "initcall_blacklist", "i2c_i801_init");
    } else {
      InitcallBlacklistKind();
      NoStepReads(r, order, 6, "initcall_blacklist");
    }
  }

  /** Platform by platform. */
  lemma PowerReads(r: Request, order: seq<Bytes>)
    requires DsmPolicy.KeyOrder(order, r.cfg.user.Keys)
    ensures Reads(r, order, "pcie_aspm", "off")
    ensures if Named(r.plat, "apollolake") then Reads(r, order, "intel_iommu", "igfx_off")
            else Lacks(r, order, "intel_iommu")
    ensures if Named(r.plat, "broadwellnk") then Reads(r, order, "initcall_blacklist", "i2c_i801_init")
            else Lacks(r, order, "initcall_blacklist")
  {
    hide Named, Reads, Lacks, DsmPolicy.Ascending;
    AspmReads(r, order);
    IommuReads(r, order);
    InitcallReads(r, order);
  }

  // ----- the identity

  lemma CardTagOf(n: nat)
    ensures CardTag(TagOf(MacKey(n)))
  {
    hide Itoa;
    var k := MacKey(n);
    assert k[0] == 109;
    assert k[|k| - 1] == Itoa(n)[|Itoa(n)| - 1];
  }

  lemma LongTag(a: string, b: string)
    requires IsText(a) && IsText(b) && a != "" && b != ""
    ensures TagOf(Ascii(a) + Ascii(b)) == CharTag(|a| + |b|, a[0], b[|b| - 1])
  {
  }

  lemma AfterCardsTags(macs: seq<Bytes>)
    ensures |AfterCards(macs)| == if macs == [] then 1 else 2
    ensures macs != [] ==> TagOf(AfterCards(macs)[0].key) == CharTag(26, 's', 's')
    ensures TagOf(AfterCards(macs)[|AfterCards(macs)| - 1].key) == CharTag(21, 'v', 'n')
  {
    hide TagOf, Indices, Join;
    LongTag("skip_vender_", "mac_interfaces");
    LongTag("vender_format_", "version");
  }

  /** How the steps of the identity lie. */
  lemma IdentityAt(model: Bytes, id: Identity)
    ensures var s, n, tail := IdentitySteps(model, id), |id.macs|, AfterCards(id.macs);
            && |s| == 3 + n + |tail| && s[0] == Put(HwVersion(), model) && s[1] == Put(Sn(), id.serial)
            && (forall i | 0 <= i < n :: s[2 + i] == MacSteps(id.macs)[i]) && s[2 + n] == Put(NetifNum(), Itoa(n))
            && forall i | 0 <= i < |tail| :: s[3 + n + i] == tail[i]
  {
    hide AfterCards, MacSteps, HwVersion, Sn, NetifNum, Itoa;
  }

  lemma IdentityTagAt(model: Bytes, id: Identity, j: nat)
    requires j < |IdentitySteps(model, id)|
    ensures var s, n, t := IdentitySteps(model, id), |id.macs|, TagOf(IdentitySteps(model, id)[j].key);
            if j == 0 then t == CharTag(15, 's', 'n')
            else if j == 1 then t == CharTag(2, 's', 'n')
            else if j < 2 + n then CardTag(t)
            else if j == 2 + n then t == CharTag(9, 'n', 'm')
            else if j < |s| - 1 then t == CharTag(26, 's', 's') && j == |s| - 2
            else t == CharTag(21, 'v', 'n')
  {
    hide TagOf, Kind, CardTag, IdentitySteps, AfterCards, MacKey, Itoa;
    SynoHwVersionKind();
    SnKind();
    NetifNumKind();
    AfterCardsTags(id.macs);
    IdentityAt(model, id);
    var n := |id.macs|;
    if 2 <= j < 2 + n {
      CardTagOf(j - 1);
      assert IdentitySteps(model, id)[2 + (j - 2)] == MacSteps(id.macs)[j - 2];
    } else if j > 2 + n {
      assert IdentitySteps(model, id)[3 + n + (j - 3 - n)] == AfterCards(id.macs)[j - 3 - n];
    }
  }

  lemma IdentityTagsLast(model: Bytes, id: Identity, i: nat)
    requires i < |IdentitySteps(model, id)| && (i < 2 || i >= 2 + |id.macs|)
    ensures TagIsLast(IdentitySteps(model, id), i)
  {
    hide TagOf, IdentitySteps;
    var s := IdentitySteps(model, id);
    IdentityTagAt(model, id, i);
    forall j | i < j < |s| ensures TagOf(s[j].key) != TagOf(s[i].key) {
      IdentityTagAt(model, id, j);
    }
  }

  lemma HardwareGives(r: Request, order: seq<Bytes>)
    requires DsmPolicy.KeyOrder(order, r.cfg.user.Keys)
    ensures Gives(r, order, "syno_hw_version", r.cfg.model)
  {
    hide TagIsLast, TagOf, Says, Reads, Gives, IdentitySteps, MacSteps, AfterCards, Itoa, DsmPolicy.Ascending;
    IdentityAt(r.cfg.model, r.id);
    IdentityTagsLast(r.cfg.model, r.id, 0);
    StepGives(r, order, 0, 0, "syno_hw_version", r.cfg.model);
  }

  lemma SerialGives(r: Request, order: seq<Bytes>)
    requires DsmPolicy.KeyOrder(order, r.cfg.user.Keys)
    ensures Gives(r, order, "sn", r.id.serial)
  {
    hide TagIsLast, TagOf, Says, Reads, Gives, IdentitySteps, MacSteps, AfterCards, Itoa, DsmPolicy.Ascending;
    IdentityAt(r.cfg.model, r.id);
    IdentityTagsLast(r.cfg.model, r.id, 1);
    StepGives(r, order, 0, 1, "sn", r.id.serial);
  }

  lemma CardsAreCounted(r: Request, order: seq<Bytes>)
    requires DsmPolicy.KeyOrder(order, r.cfg.user.Keys)
    ensures Gives(r, order, "netif_num", Itoa(|r.id.macs|))
  {
    hide TagIsLast, TagOf, Says, Reads, Gives, IdentitySteps, MacSteps, AfterCards, Itoa, DsmPolicy.Ascending;
    IdentityAt(r.cfg.model, r.id);
    IdentityTagsLast(r.cfg.model, r.id, 2 + |r.id.macs|);
    StepGives(r, order, 0, 2 + |r.id.macs|, "netif_num", Itoa(|r.id.macs|));
  }

  /** A key too long for one literal. */
  predicate LongKeySays(r: Request, order: seq<Bytes>, key: string, more: string, value: Option<Bytes>)
    requires DsmPolicy.KeyOrder(order, r.cfg.user.Keys)
  {
    IsText(key) && IsText(more) && Says(r, order, Ascii(key) + Ascii(more), value)
  }

  lemma LongKeyStep(r: Request, order: seq<Bytes>, i: nat, key: string, more: string, value: Bytes)
    requires DsmPolicy.KeyOrder(order, r.cfg.user.Keys) && IsText(key) && IsText(more)
    requires i < |Section(r, 0)| && TagIsLast(Section(r, 0), i)
    requires Section(r, 0)[i] == Put(Ascii(key) + Ascii(more), value)
    ensures LongKeySays(r, order, key, more, Some(value))
  {
    hide Section, TagIsLast, Says, DsmPolicy.Ascending;
    StepSays(r, order, 0, i);
  }

  lemma FormatReads(r: Request, order: seq<Bytes>)
    requires DsmPolicy.KeyOrder(order, r.cfg.user.Keys)
    ensures IsText("2") && LongKeySays(r, order, "vender_format_", "version", Some(Ascii("2")))
  {
    hide TagIsLast, TagOf, Says, Reads, Gives, IdentitySteps, MacSteps, AfterCards, Itoa, LongKeySays;
    hide DsmPolicy.Ascending;
    var s := IdentitySteps(r.cfg.model, r.id);
    IdentityAt(r.cfg.model, r.id);
    FormatIsLast(r.id.macs);
    IdentityTagsLast(r.cfg.model, r.id, |s| - 1);
    assert s[3 + |r.id.macs| + (|AfterCards(r.id.macs)| - 1)] == s[|s| - 1];
    LongKeyStep(r, order, |s| - 1, "vender_format_", "version", Ascii("2"));
  }

  lemma FormatIsLast(macs: seq<Bytes>)
    ensures var s := AfterCards(macs);
            |s| > 0 && s[|s| - 1] == Put(Ascii("vender_format_") + Ascii("version"), Ascii("2"))
  {
    hide SkipKey, Indices, Join;
  }

  lemma SkipIsFirst(macs: seq<Bytes>)
    requires macs != []
    ensures |AfterCards(macs)| == 2 && AfterCards(macs)[0] == Put(SkipKey(), Join(Indices(|macs|), [COMMA]))
  {
    hide SkipKey, Indices, Join;
  }

  lemma SkipTag()
    ensures SkipKey() == Ascii("skip_vender_") + Ascii("mac_interfaces") && IsText("skip_vender_")
    ensures IsText("mac_interfaces") && TagOf(SkipKey()) == CharTag(26, 's', 's') && Kind(TagOf(SkipKey())) == 0
  {
    hide TagOf;
    LongTag("skip_vender_", "mac_interfaces");
  }

  lemma SkipListSays(r: Request, order: seq<Bytes>)
    requires DsmPolicy.KeyOrder(order, r.cfg.user.Keys)
    ensures LongKeySays(r, order, "skip_vender_", "mac_interfaces",
                        if r.id.macs == [] then None else Some(Join(Indices(|r.id.macs|), [COMMA])))
  {
    hide TagIsLast, TagOf, Says, Kind, IdentitySteps, MacSteps, AfterCards, Itoa, SkipKey, Indices, Join;
    hide DsmPolicy.Ascending;
    SkipTag();
    IdentityAt(r.cfg.model, r.id);
    if r.id.macs == [] {
      forall i | 0 <= i < |Section(r, 0)| ensures Section(r, 0)[i].key != SkipKey() {
        IdentityTagAt(r.cfg.model, r.id, i);
        AfterCardsTags(r.id.macs);
      }
      NoStepSays(r, order, 0, SkipKey());
    } else {
      SkipIsFirst(r.id.macs);
      IdentityTagsLast(r.cfg.model, r.id, 3 + |r.id.macs|);
      assert Section(r, 0)[3 + |r.id.macs| + 0] == AfterCards(r.id.macs)[0];
      LongKeyStep(r, order, 3 + |r.id.macs|, "skip_vender_", "mac_interfaces", Join(Indices(|r.id.macs|), [COMMA]));
    }
  }

  /** The list is the numbers of the cards, from 0 on. */
  lemma SkipListIs(n: nat)
    requires n > 0
    ensures var parts := Parts(Join(Indices(n), [COMMA]), COMMA);
            |parts| == n && forall i | 0 <= i < n :: parts[i] == Itoa(i)
  {
    hide Parts, Join, Itoa;
    forall i | 0 <= i < n ensures COMMA !in Indices(n)[i] {
      NoComma(Itoa(i));
    }
    PartsOfJoin(Indices(n), COMMA);
  }

  lemma NoComma(s: Bytes)
    requires AllDigits(s)
    ensures COMMA !in s
  {
  }

  /** mac<n> is the n-th address. */
  predicate CardSays(r: Request, order: seq<Bytes>, n: nat)
    requires DsmPolicy.KeyOrder(order, r.cfg.user.Keys)
  {
    Says(r, order, Ascii("mac") + Itoa(n), if 1 <= n <= |r.id.macs| then Some(r.id.macs[n - 1]) else None)
  }

  lemma TailHasNoCard(macs: seq<Bytes>, n: nat)
    ensures !Mentions([Put(NetifNum(), Itoa(|macs|))] + AfterCards(macs), MacKey(n))
  {
    hide AfterCards, NetifNum, MacKey, Itoa, TagOf, CardTag;
    var s := [Put(NetifNum(), Itoa(|macs|))] + AfterCards(macs);
    MacKeyOk(n);
    CardTagOf(n);
    AfterCardsTags(macs);
    assert !CardTag(CharTag(26, 's', 's')) && !CardTag(CharTag(21, 'v', 'n')) by { OtherTags(); }
    forall i | 0 <= i < |s| ensures s[i].key != MacKey(n) {
      assert i > 0 ==> s[i] == AfterCards(macs)[i - 1];
    }
  }

  lemma OtherTags()
    ensures !CardTag(CharTag(26, 's', 's')) && !CardTag(CharTag(21, 'v', 'n'))
  {
  }

  lemma LaterCardsDiffer(macs: seq<Bytes>, n: nat)
    requires 1 <= n <= |macs|
    ensures !Mentions(MacSteps(macs)[n..], MacKey(n))
  {
    hide MacKey;
    var s := MacSteps(macs)[n..];
    forall i | 0 <= i < |s| ensures s[i].key != MacKey(n) {
      assert s[i] == MacSteps(macs)[n + i];
      if MacKey(n + i + 1) == MacKey(n) {
        MacKeysDiffer(n + i + 1, n);
      }
    }
  }

  lemma CardIsSaid(model: Bytes, id: Identity, n: nat)
    requires 1 <= n <= |id.macs|
    ensures After(None, IdentitySteps(model, id), MacKey(n)) == Some(id.macs[n - 1])
  {
    hide After, AfterCards, MacKey, HwVersion, Sn, NetifNum, Itoa, Mentions;
    var heads, macs := [Put(HwVersion(), model), Put(Sn(), id.serial)], MacSteps(id.macs);
    var tail := [Put(NetifNum(), Itoa(|id.macs|))] + AfterCards(id.macs);
    TailHasNoCard(id.macs, n);
    LaterCardsDiffer(id.macs, n);
    MentionsConcat(macs[n..], tail, MacKey(n));
    AfterPut(None, heads + macs[..n - 1], MacKey(n), id.macs[n - 1], macs[n..] + tail);
    assert macs == macs[..n - 1] + [Put(MacKey(n), id.macs[n - 1])] + macs[n..];
    assert IdentitySteps(model, id) == heads + macs[..n - 1] + [Put(MacKey(n), id.macs[n - 1])] + (macs[n..] + tail);
  }

  lemma NoCardIsSaid(model: Bytes, id: Identity, n: nat)
    requires !(1 <= n <= |id.macs|)
    ensures !Mentions(IdentitySteps(model, id), MacKey(n))
  {
    hide AfterCards, MacKey, HwVersion, Sn, NetifNum, Itoa, Mentions, MacSteps;
    var hw, sn, macs := Put(HwVersion(), model), Put(Sn(), id.serial), MacSteps(id.macs);
    var tail := [Put(NetifNum(), Itoa(|id.macs|))] + AfterCards(id.macs);
    TailHasNoCard(id.macs, n);
    MacsMention(id.macs, n);
    MentionsConcat(macs, tail, MacKey(n));
    MacKeyOk(n);
    MacIsNotModel(n);
    HeadsMention(hw, sn, macs + tail, MacKey(n));
    assert IdentitySteps(model, id) == [hw] + [sn] + (macs + tail);
  }

  lemma CardReads(r: Request, order: seq<Bytes>, n: nat)
    requires DsmPolicy.KeyOrder(order, r.cfg.user.Keys)
    ensures CardSays(r, order, n)
  {
    hide After, IdentitySteps, Says, Kind, TagOf, Mentions, Itoa, DsmPolicy.Ascending;
    CardKind(n);
    if 1 <= n <= |r.id.macs| {
      CardIsSaid(r.cfg.model, r.id, n);
      SectionSays(r, order, 0, MacKey(n));
    } else {
      NoCardIsSaid(r.cfg.model, r.id, n);
      NoStepSays(r, order, 0, MacKey(n));
    }
  }

  /** The model, the serial number and every network card by its number. */
  lemma IdentityReads(r: Request, order: seq<Bytes>)
    requires DsmPolicy.KeyOrder(order, r.cfg.user.Keys)
    ensures Gives(r, order, "syno_hw_version", r.cfg.model) && Gives(r, order, "sn", r.id.serial)
    ensures forall n: nat :: CardSays(r, order, n)
    ensures Gives(r, order, "netif_num", Itoa(|r.id.macs|))
    ensures LongKeySays(r, order, "skip_vender_", "mac_interfaces",
                        if r.id.macs == [] then None else Some(Join(Indices(|r.id.macs|), [COMMA])))
    ensures IsText("2") && LongKeySays(r, order, "vender_format_", "version", Some(Ascii("2")))
  {
    hide Gives, CardSays, LongKeySays, Itoa, Join, Indices, DsmPolicy.Ascending;
    HardwareGives(r, order);
    SerialGives(r, order);
    forall n: nat ensures CardSays(r, order, n) {
      CardReads(r, order, n);
    }
    CardsAreCounted(r, order);
    SkipListSays(r, order);
    FormatReads(r, order);
  }

  // ----- what the build leaves to the user

  lemma NobodyKind(key: string)
    requires IsText(key) && key != "" && Kind(CharTag(|key|, key[0], key[|key| - 1])) == SECTIONS
    ensures Kind(TagOf(Ascii(key))) == SECTIONS
  {
    hide Kind, TagOf;
    TagOfText(key);
  }

  lemma NobodyReads(r: Request, order: seq<Bytes>, key: string)
    requires DsmPolicy.KeyOrder(order, r.cfg.user.Keys)
    requires IsText(key) && key != "" && Kind(CharTag(|key|, key[0], key[|key| - 1])) == SECTIONS
    ensures Lacks(r, order, key)
  {
    hide Kind, TagOf, Says, DsmPolicy.Ascending;
    NobodyKind(key);
    NobodySays(r, order, Ascii(key));
  }

  lemma EfiReads(r: Request, order: seq<Bytes>)
    requires DsmPolicy.KeyOrder(order, r.cfg.user.Keys)
    ensures Lacks(r, order, "noefi") && Lacks(r, order, "withefi")
  {
    hide TagOf, Says, Lacks, DsmPolicy.Ascending;
    NobodyReads(r, order, "noefi");
    NobodyReads(r, order, "withefi");
  }

  lemma BootconReads(r: Request, order: seq<Bytes>)
    requires DsmPolicy.KeyOrder(order, r.cfg.user.Keys)
    ensures Lacks(r, order, "keep_bootcon")
  {
    hide TagOf, Says, Lacks, DsmPolicy.Ascending;
    NobodyReads(r, order, "keep_bootcon");
  }

  /** The build never keeps the boot console and never decides about EFI. */
  lemma NeverReads(r: Request, order: seq<Bytes>)
    requires DsmPolicy.KeyOrder(order, r.cfg.user.Keys)
    ensures Lacks(r, order, "keep_bootcon") && Lacks(r, order, "noefi") && Lacks(r, order, "withefi")
  {
    hide Lacks, DsmPolicy.Ascending;
    BootconReads(r, order);
    EfiReads(r, order);
  }
}
