/** The command line handed to DSM: internal/cmdline/build.go. */
module BuildLine {
  import opened GoStrings
  import opened CommandLine
  import DsmPolicy

  datatype Platform = Platform(name: Bytes, dt: bool, kernelMajor: Option<nat>)

  /** What goes on the line for the disks: a port map, a remap, or nothing. */
  datatype StoragePolicy = StoragePolicy(portmap: Bytes, idxMap: Bytes, remap: Bytes, useRemap: bool)

  datatype Config = Config(model: Bytes, panic: int, ncq: bool, blacklist: seq<Bytes>, user: map<Bytes, Bytes>)

  datatype Identity = Identity(serial: Bytes, macs: seq<Bytes>)

  function IntText(n: int): Bytes { if n < 0 then [MINUS] + Itoa(-n) else Itoa(n) }

  // ----- what each part of the build asks for

  function MacSteps(macs: seq<Bytes>): (r: seq<Step>)
    ensures |r| == |macs|
  {
    seq(|macs|, i requires 0 <= i < |macs| => Put(MacKey(i + 1), macs[i]))
  }

  function Indices(n: nat): (r: seq<Bytes>)
    ensures |r| == n
  {
    seq(n, i requires 0 <= i < n => Itoa(i))
  }

  function SkipKey(): Bytes { Ascii("skip_vender_") + Ascii("mac_interfaces") }

  function AfterCards(macs: seq<Bytes>): seq<Step> {
    (if macs == [] then [] else [Put(SkipKey(), Join(Indices(|macs|), [COMMA]))])
    + [Put(Ascii("vender_format_") + Ascii("version"), Ascii("2"))]
  }

  function IdentitySteps(model: Bytes, id: Identity): seq<Step> {
    [Put(HwVersion(), model), Put(Sn(), id.serial)] + MacSteps(id.macs) + [Put(NetifNum(), Itoa(|id.macs|))]
    + AfterCards(id.macs)
  }

  function ConsoleSteps(): seq<Step> {
    [
      Put(Ascii("earlyprintk"), []),
      Put(Ascii("earlycon"), Ascii("uart8250,io,") + Ascii("0x3f8,115200n8")),
      Repeat(Console(), Ascii("tty0")),
      Repeat(Console(), Ascii("ttyS0,115200n8"))
    ]
  }

  function LogSteps(panic: int): seq<Step> {
    [
      Put(Ascii("loglevel"), Ascii("15")),
      Put(Ascii("log_buf_len"), Ascii("32M")),
      Put(Ascii("panic"), IntText(panic)),
      Put(Ascii("nowatchdog"), []),
      Put(Ascii("root"), Ascii("/dev/md0")),
      Put(Ascii("rootwait"), [])
    ]
  }

  function KernelSteps(major: nat): seq<Step> {
    (if major >= 5 then [Put(Ascii("split_lock_detect"), Ascii("off"))] else [])
    + [Put(Ascii("module.sig_enforce"), Ascii("0"))]
    + (if major < 5 then [Put(Ascii("HddHotplug"), Ascii("1"))] else [])
  }

  function Broadwellnk(): Bytes { Ascii("broadwellnk") }

  function Apollolake(): Bytes { Ascii("apollolake") }

  function DiskSteps(ncq: bool, plat: Platform): seq<Step> {
    (if ncq then [] else [Put(Ascii("libata.force"), Ascii("noncq"))])
    + (if plat.dt then SerialSteps() else DetectSteps(plat.name))
  }

  function SerialSteps(): seq<Step> {
    [Put(Ascii("syno_ttyS0"), Ascii("serial,0x3f8")), Put(Ascii("syno_ttyS1"), Ascii("serial,0x2f8"))]
  }

  function DetectSteps(name: Bytes): seq<Step> {
    (if name == Broadwellnk() then [Put(Ascii("SMBusHddDynamicPower"), Ascii("1"))] else [])
    + [Put(Ascii("syno_hdd_detect"), Ascii("0")), Put(Ascii("syno_hdd_powerup_seq"), Ascii("0"))]
  }

  function PolicySteps(p: StoragePolicy): seq<Step> {
    if p.portmap != [] then [Put(Ascii("SataPortMap"), p.portmap), Put(Ascii("DiskIdxMap"), p.idxMap)]
    else if p.useRemap then [Put(Ascii("sata_remap"), p.remap)]
    else []
  }

  function PowerSteps(plat: Platform): seq<Step> {
    [Put(Ascii("pcie_aspm"), Ascii("off"))]
    + (if plat.name == Apollolake() then [Put(Ascii("intel_iommu"), Ascii("igfx_off"))] else [])
    + (if plat.name == Broadwellnk() then [Put(Ascii("initcall_blacklist"), Ascii("i2c_i801_init"))] else [])
  }

  function BlacklistKey(): Bytes { Ascii("modprobe.blacklist") }

  function BlacklistSteps(modules: seq<Bytes>): (r: seq<Step>)
    ensures |r| == |modules| + 1
  {
    seq(|modules|, i requires 0 <= i < |modules| => Csv(BlacklistKey(), modules[i]))
    + [Csv(BlacklistKey(), Ascii("pgdrv"))]
  }

  /** Everything between the identity and the user's own entries. */
  function FixedSteps(cfg: Config, plat: Platform, major: nat, policy: StoragePolicy): seq<Step> {
    ConsoleSteps() + LogSteps(cfg.panic) + KernelSteps(major) + DiskSteps(cfg.ncq, plat) + PolicySteps(policy)
    + PowerSteps(plat) + BlacklistSteps(cfg.blacklist)
  }

  function UserSteps(order: seq<Bytes>, user: map<Bytes, Bytes>): (r: seq<Step>)
    requires forall k | k in order :: k in user
    ensures |r| == |order|
  {
    seq(|order|, i requires 0 <= i < |order| => Put(order[i], user[order[i]]))
  }

  function BuildSteps(cfg: Config, plat: Platform, major: nat, id: Identity, policy: StoragePolicy,
      order: seq<Bytes>): seq<Step>
    requires forall k | k in order :: k in cfg.user
  {
    IdentitySteps(cfg.model, id) + FixedSteps(cfg, plat, major, policy) + UserSteps(order, cfg.user)
  }

  // ----- the build

  method AddIdentity(b: Builder, model: Bytes, id: Identity)
    requires b.Valid()
    modifies b
    ensures b.Valid() && b.steps == old(b.steps) + IdentitySteps(model, id)
  {
    hide Applied, IndexOk, MacSteps, AfterCards, HwVersion, Sn, NetifNum, Itoa;
    b.Set(HwVersion(), model);
    b.Set(Sn(), id.serial);
    AddMacs(b, id.macs);
    b.Set(NetifNum(), Itoa(|id.macs|));
    AddAfterCards(b, id.macs);
  }

  method AddMacs(b: Builder, macs: seq<Bytes>)
    requires b.Valid()
    modifies b
    ensures b.Valid() && b.steps == old(b.steps) + MacSteps(macs)
  {
    hide Applied, IndexOk, MacKey;
    for i := 0 to |macs|
      invariant b.Valid() && b.steps == old(b.steps) + MacSteps(macs)[..i]
    {
      b.Set(MacKey(i + 1), macs[i]);
    }
    assert MacSteps(macs)[..|macs|] == MacSteps(macs);
  }

  method AddAfterCards(b: Builder, macs: seq<Bytes>)
    requires b.Valid()
    modifies b
    ensures b.Valid() && b.steps == old(b.steps) + AfterCards(macs)
  {
    hide Applied, IndexOk, SkipKey, Itoa, Join;
    var skip: seq<Bytes> := [];
    for i := 0 to |macs|
      invariant skip == Indices(|macs|)[..i]
    {
      skip := skip + [Itoa(i)];
    }
    assert skip == Indices(|macs|);
    if |skip| > 0 {
      b.Set(SkipKey(), Join(skip, [COMMA]));
    }
    b.Set(Ascii("vender_format_") + Ascii("version"), Ascii("2"));
  }

  method AddConsoles(b: Builder)
    requires b.Valid()
    modifies b
    ensures b.Valid() && b.steps == old(b.steps) + ConsoleSteps()
  {
    hide Applied, IndexOk, Console;
    b.Flag(Ascii("earlyprintk"));
    b.Set(Ascii("earlycon"), Ascii("uart8250,io,") + Ascii("0x3f8,115200n8"));
    b.Add(Console(), Ascii("tty0"));
    b.Add(Console(), Ascii("ttyS0,115200n8"));
  }

  method AddLog(b: Builder, panic: int)
    requires b.Valid()
    modifies b
    ensures b.Valid() && b.steps == old(b.steps) + LogSteps(panic)
  {
    hide Applied, IndexOk, IntText;
    b.Set(Ascii("loglevel"), Ascii("15"));
    b.Set(Ascii("log_buf_len"), Ascii("32M"));
    b.Set(Ascii("panic"), IntText(panic));
    b.Flag(Ascii("nowatchdog"));
    b.Set(Ascii("root"), Ascii("/dev/md0"));
    b.Flag(Ascii("rootwait"));
  }

  method AddKernel(b: Builder, major: nat)
    requires b.Valid()
    modifies b
    ensures b.Valid() && b.steps == old(b.steps) + KernelSteps(major)
  {
    hide Applied, IndexOk;
    if major >= 5 {
      b.Set(Ascii("split_lock_detect"), Ascii("off"));
    }
    b.Set(Ascii("module.sig_enforce"), Ascii("0"));
    if major < 5 {
      b.Set(Ascii("HddHotplug"), Ascii("1"));
    }
  }

  method AddDisks(b: Builder, ncq: bool, plat: Platform)
    requires b.Valid()
    modifies b
    ensures b.Valid() && b.steps == old(b.steps) + DiskSteps(ncq, plat)
  {
    hide Applied, IndexOk, DetectSteps, SerialSteps;
    if !ncq {
      b.Set(Ascii("libata.force"), Ascii("noncq"));
    }
    if plat.dt {
      AddSerial(b);
    } else {
      AddDetect(b, plat.name);
    }
  }

  method AddSerial(b: Builder)
    requires b.Valid()
    modifies b
    ensures b.Valid() && b.steps == old(b.steps) + SerialSteps()
  {
    hide Applied, IndexOk;
    b.Set(Ascii("syno_ttyS0"), Ascii("serial,0x3f8"));
    b.Set(Ascii("syno_ttyS1"), Ascii("serial,0x2f8"));
  }

  method AddDetect(b: Builder, name: Bytes)
    requires b.Valid()
    modifies b
    ensures b.Valid() && b.steps == old(b.steps) + DetectSteps(name)
  {
    hide Applied, IndexOk, Broadwellnk;
    b.SetIf(name == Broadwellnk(), Ascii("SMBusHddDynamicPower"), Ascii("1"));
    b.Set(Ascii("syno_hdd_detect"), Ascii("0"));
    b.Set(Ascii("syno_hdd_powerup_seq"), Ascii("0"));
  }

  method AddPolicy(b: Builder, policy: StoragePolicy)
    requires b.Valid()
    modifies b
    ensures b.Valid() && b.steps == old(b.steps) + PolicySteps(policy)
  {
    hide Applied, IndexOk;
    if policy.portmap != [] {
      b.Set(Ascii("SataPortMap"), policy.portmap);
      b.Set(Ascii("DiskIdxMap"), policy.idxMap);
    } else if policy.useRemap {
      b.Set(Ascii("sata_remap"), policy.remap);
    } else {
      assert b.steps + [] == b.steps;
    }
  }

  method AddPower(b: Builder, plat: Platform)
    requires b.Valid()
    modifies b
    ensures b.Valid() && b.steps == old(b.steps) + PowerSteps(plat)
  {
    hide Applied, IndexOk, Apollolake, Broadwellnk;
    b.Set(Ascii("pcie_aspm"), Ascii("off"));
    b.SetIf(plat.name == Apollolake(), Ascii("intel_iommu"), Ascii("igfx_off"));
    b.SetIf(plat.name == Broadwellnk(), Ascii("initcall_blacklist"), Ascii("i2c_i801_init"));
  }

  method AddBlacklist(b: Builder, modules: seq<Bytes>)
    requires b.Valid()
    modifies b
    ensures b.Valid() && b.steps == old(b.steps) + BlacklistSteps(modules)
  {
    hide Applied, IndexOk, BlacklistKey;
    for i := 0 to |modules|
      invariant b.Valid() && b.steps == old(b.steps) + BlacklistSteps(modules)[..i]
    {
      b.AppendCSV(BlacklistKey(), modules[i]);
    }
    b.AppendCSV(BlacklistKey(), Ascii("pgdrv"));
  }

  method AddUser(b: Builder, user: map<Bytes, Bytes>) returns (ghost order: seq<Bytes>)
    requires b.Valid()
    modifies b
    ensures DsmPolicy.KeyOrder(order, user.Keys)
    ensures b.Valid() && b.steps == old(b.steps) + UserSteps(order, user)
  {
    hide Applied, IndexOk, DsmPolicy.Ascending;
    var keys := DsmPolicy.SortKeys(user.Keys);
    order := keys;
    for i := 0 to |keys|
      invariant b.Valid() && b.steps == old(b.steps) + UserSteps(keys, user)[..i]
    {
      b.Set(keys[i], user[keys[i]]);
    }
    assert UserSteps(keys, user)[..|keys|] == UserSteps(keys, user);
  }

  lemma Regroup<T>(a: seq<T>, b: seq<T>, c: seq<T>)
    ensures (a + b) + c == a + (b + c)
  {
  }

  method AddFixed(b: Builder, cfg: Config, plat: Platform, major: nat, policy: StoragePolicy)
    requires b.Valid()
    modifies b
    ensures b.Valid() && b.steps == old(b.steps) + FixedSteps(cfg, plat, major, policy)
  {
    hide Applied, IndexOk, ConsoleSteps, LogSteps, KernelSteps, DiskSteps, PolicySteps, PowerSteps, BlacklistSteps;
    ghost var start, sum := b.steps, ConsoleSteps();
    AddConsoles(b);
    AddLog(b, cfg.panic);
    Regroup(start, sum, LogSteps(cfg.panic));
    sum := sum + LogSteps(cfg.panic);
    AddKernel(b, major);
    Regroup(start, sum, KernelSteps(major));
    sum := sum + KernelSteps(major);
    AddDisks(b, cfg.ncq, plat);
    Regroup(start, sum, DiskSteps(cfg.ncq, plat));
    sum := sum + DiskSteps(cfg.ncq, plat);
    AddPolicy(b, policy);
    Regroup(start, sum, PolicySteps(policy));
    sum := sum + PolicySteps(policy);
    AddPower(b, plat);
    Regroup(start, sum, PowerSteps(plat));
    sum := sum + PowerSteps(plat);
    AddBlacklist(b, cfg.blacklist);
    Regroup(start, sum, BlacklistSteps(cfg.blacklist));
  }

  /** Nothing is built for a platform without a kernel of that version. */
  method Build(cfg: Config, plat: Platform, id: Identity, policy: StoragePolicy)
      returns (b: Builder, ok: bool, ghost order: seq<Bytes>)
    ensures fresh(b) && b.Valid() && ok == plat.kernelMajor.Some?
    ensures ok ==>
              && DsmPolicy.KeyOrder(order, cfg.user.Keys)
              && b.steps == BuildSteps(cfg, plat, plat.kernelMajor.value, id, policy, order)
  {
    hide Applied, IndexOk, IdentitySteps, FixedSteps, UserSteps, DsmPolicy.Ascending;
    b := new Builder();
    order := [];
    if plat.kernelMajor.None? {
      return b, false, order;
    }
    ok := true;
    AddIdentity(b, cfg.model, id);
    assert b.steps == IdentitySteps(cfg.model, id);
    AddFixed(b, cfg, plat, plat.kernelMajor.value, policy);
    order := AddUser(b, cfg.user);
  }
}
