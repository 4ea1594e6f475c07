/** What the built command line guarantees. */
module BuildChecks {
  import opened GoStrings
  import opened CommandLine
  import opened BuildLine
  import DsmPolicy

  lemma MentionsConcat(a: seq<Step>, b: seq<Step>, key: Bytes)
    ensures Mentions(a + b, key) <==> Mentions(a, key) || Mentions(b, key)
  {
    if Mentions(a, key) {
      var i :| 0 <= i < |a| && a[i].key == key;
      assert (a + b)[i] == a[i];
    }
    if Mentions(b, key) {
      var i :| 0 <= i < |b| && b[i].key == key;
      assert (a + b)[|a| + i] == b[i];
    }
  }

  // ----- only console is repeated

  predicate NoRepeat(steps: seq<Step>) { forall i | 0 <= i < |steps| :: !steps[i].Repeat? }

  lemma RepeatsOnlyConcat(a: seq<Step>, b: seq<Step>, key: Bytes)
    requires RepeatsOnly(a, key) && RepeatsOnly(b, key)
    ensures RepeatsOnly(a + b, key)
  {
  }

  lemma NoRepeatConcat(a: seq<Step>, b: seq<Step>)
    requires NoRepeat(a) && NoRepeat(b)
    ensures NoRepeat(a + b)
  {
  }

  lemma NoRepeatIsFine(a: seq<Step>, key: Bytes)
    requires NoRepeat(a)
    ensures RepeatsOnly(a, key)
  {
  }

  lemma PlainSections(cfg: Config, plat: Platform, major: nat, policy: StoragePolicy)
    ensures NoRepeat(LogSteps(cfg.panic)) && NoRepeat(KernelSteps(major)) && NoRepeat(DiskSteps(cfg.ncq, plat))
    ensures NoRepeat(PolicySteps(policy)) && NoRepeat(PowerSteps(plat)) && NoRepeat(BlacklistSteps(cfg.blacklist))
  {
  }

  lemma IdentityNoRepeat(model: Bytes, id: Identity)
    ensures NoRepeat(IdentitySteps(model, id))
  {
  }

  lemma ConsolesRepeatConsole()
    ensures RepeatsOnly(ConsoleSteps(), Console())
  {
  }

  lemma UserNoRepeat(order: seq<Bytes>, user: map<Bytes, Bytes>)
    requires forall k | k in order :: k in user
    ensures NoRepeat(UserSteps(order, user))
  {
  }

  lemma BuildRepeatsConsole(cfg: Config, plat: Platform, major: nat, id: Identity, policy: StoragePolicy,
                            order: seq<Bytes>)
    requires forall k | k in order :: k in cfg.user
    ensures RepeatsOnly(BuildSteps(cfg, plat, major, id, policy, order), Console())
  {
    hide IdentitySteps, ConsoleSteps, LogSteps, KernelSteps, DiskSteps, PolicySteps, PowerSteps, BlacklistSteps,
         UserSteps,
         RepeatsOnly, NoRepeat, Console;
    PlainSections(cfg, plat, major, policy);
    IdentityNoRepeat(cfg.model, id);
    UserNoRepeat(order, cfg.user);
    ConsolesRepeatConsole();
    var rest := LogSteps(cfg.panic) + KernelSteps(major) + DiskSteps(cfg.ncq, plat) + PolicySteps(policy)
                + PowerSteps(plat)
                + BlacklistSteps(cfg.blacklist);
    NoRepeatConcat(LogSteps(cfg.panic), KernelSteps(major));
    NoRepeatConcat(LogSteps(cfg.panic) + KernelSteps(major), DiskSteps(cfg.ncq, plat));
    NoRepeatConcat(LogSteps(cfg.panic) + KernelSteps(major) + DiskSteps(cfg.ncq, plat), PolicySteps(policy));
    NoRepeatConcat(LogSteps(cfg.panic) + KernelSteps(major) + DiskSteps(cfg.ncq, plat) + PolicySteps(policy),
        PowerSteps(plat));
    NoRepeatConcat(LogSteps(cfg.panic) + KernelSteps(major) + DiskSteps(cfg.ncq, plat) + PolicySteps(policy)
                   + PowerSteps(plat), BlacklistSteps(cfg.blacklist));
    NoRepeatIsFine(rest, Console());
    NoRepeatIsFine(IdentitySteps(cfg.model, id), Console());
    NoRepeatIsFine(UserSteps(order, cfg.user), Console());
    RepeatsOnlyConcat(ConsoleSteps(), rest, Console());
    assert FixedSteps(cfg, plat, major, policy) == ConsoleSteps() + rest;
    RepeatsOnlyConcat(IdentitySteps(cfg.model, id), FixedSteps(cfg, plat, major, policy), Console());
    RepeatsOnlyConcat(IdentitySteps(cfg.model, id) + FixedSteps(cfg, plat, major, policy),
                      UserSteps(order, cfg.user), Console());
  }

  /** Whatever the configuration, no key but console stands on the line twice. */
  lemma OnlyConsoleIsRepeated(cfg: Config, plat: Platform, major: nat, id: Identity, policy: StoragePolicy,
                              order: seq<Bytes>, key: Bytes)
    requires (forall k | k in order :: k in cfg.user) && key != Console()
    ensures CountOf(Applied(BuildSteps(cfg, plat, major, id, policy, order)), key) <= 1
  {
    hide BuildSteps, Applied, RepeatsOnly, Console;
    BuildRepeatsConsole(cfg, plat, major, id, policy, order);
    OthersAppearOnce(BuildSteps(cfg, plat, major, id, policy, order), Console(), key);
  }

  // ----- the user has the last word

  lemma UserMentions(order: seq<Bytes>, user: map<Bytes, Bytes>, key: Bytes)
    requires forall k | k in order :: k in user
    ensures Mentions(UserSteps(order, user), key) <==> key in order
  {
    if key in order {
      var i :| 0 <= i < |order| && order[i] == key;
      assert UserSteps(order, user)[i].key == key;
    }
  }

  lemma UserSplits(order: seq<Bytes>, user: map<Bytes, Bytes>, i: nat)
    requires (forall k | k in order :: k in user) && i < |order|
    ensures forall k | k in order[i + 1..] :: k in order
    ensures UserSteps(order, user)
            == UserSteps(order, user)[..i] + [Put(order[i], user[order[i]])] + UserSteps(order[i + 1..], user)
  {
  }

  /** Every entry of the user is what is read back; every other key keeps the value it had before the user's entries. */
  lemma UserWins(cfg: Config, plat: Platform, major: nat, id: Identity, policy: StoragePolicy, order: seq<Bytes>,
      key: Bytes)
    requires DsmPolicy.KeyOrder(order, cfg.user.Keys)
    ensures var base := IdentitySteps(cfg.model, id) + FixedSteps(cfg, plat, major, policy);
            Value(Applied(BuildSteps(cfg, plat, major, id, policy, order)), key)
            == if key in cfg.user then Some(cfg.user[key]) else Value(Applied(base), key)
  {
    hide IdentitySteps, FixedSteps, UserSteps, Value, Applied, Mentions, Less;
    var base, mine := IdentitySteps(cfg.model, id) + FixedSteps(cfg, plat, major, policy), UserSteps(order, cfg.user);
    UserMentions(order, cfg.user, key);
    if key in cfg.user {
      var i :| 0 <= i < |order| && order[i] == key;
      UserSplits(order, cfg.user, i);
      var after := order[i + 1..];
      assert key !in after by {
        LessIsStrict(key, key);
      }
      UserMentions(after, cfg.user, key);
      LastPutWins(base + mine[..i], key, cfg.user[key], UserSteps(after, cfg.user));
      assert base + mine == base + mine[..i] + [Put(key, cfg.user[key])] + UserSteps(after, cfg.user);
    } else {
      UnmentionedStays(base, mine, key);
    }
  }

  // ----- validation of a built line

  /** A key that is none of those the validation looks at. */
  predicate Ordinary(k: Bytes) { |k| > 2 && !(|k| == 9 && k[0] == 110) && !(k[0] == 109 && k[1] == 97) }

  lemma OrdinaryIsOther(k: Bytes)
    requires Ordinary(k)
    ensures k != Sn() && k != NetifNum() && forall n: nat :: k != MacKey(n)
  {
    hide Itoa;
    assert Sn()[0] == 115;
    forall n: nat ensures k != MacKey(n) {
      assert MacKey(n)[0] == 109 && MacKey(n)[1] == 97;
    }
  }

  predicate Sound(s: Step) { s.key != [] && !HasBlank(s.key) && !HasBlank(s.value) }

  predicate AllSound(steps: seq<Step>) { forall i | 0 <= i < |steps| :: Sound(steps[i]) }

  /** A step of fixed text. */
  predicate Good(s: Step) { Sound(s) && Ordinary(s.key) }

  predicate AllGood(steps: seq<Step>) { forall i | 0 <= i < |steps| :: Good(steps[i]) }

  predicate Text(s: string) { forall i | 0 <= i < |s| :: '!' <= s[i] <= '~' }

  lemma TextHasNoBlank(s: string)
    requires Text(s)
    ensures !HasBlank(Ascii(s))
  {
  }

  lemma NoBlankConcat(a: Bytes, b: Bytes)
    requires !HasBlank(a) && !HasBlank(b)
    ensures !HasBlank(a + b)
  {
  }

  lemma GoodKey(k: string)
    requires Text(k) && |k| > 2 && !(|k| == 9 && k[0] == 'n') && !(k[0] == 'm' && k[1] == 'a')
    ensures Ascii(k) != [] && !HasBlank(Ascii(k)) && Ordinary(Ascii(k))
  {
    TextHasNoBlank(k);
  }

  lemma GoodSplitKey(k: string, l: string)
    requires Text(k) && Text(l) && |k| > 9 && k[0] != 'm'
    ensures Ascii(k) + Ascii(l) != [] && !HasBlank(Ascii(k) + Ascii(l)) && Ordinary(Ascii(k) + Ascii(l))
  {
    TextHasNoBlank(k);
    TextHasNoBlank(l);
    NoBlankConcat(Ascii(k), Ascii(l));
  }

  lemma NoneIsBlank()
    ensures !HasBlank([])
  {
  }

  lemma DigitsHaveNoBlank(s: Bytes)
    requires AllDigits(s)
    ensures !HasBlank(s)
  {
    assert forall i | 0 <= i < |s| :: IsDigit(s[i]);
  }

  lemma IntHasNoBlank(n: int)
    ensures !HasBlank(IntText(n))
  {
    hide Itoa, HasBlank;
    if n < 0 {
      DigitsHaveNoBlank(Itoa(-n));
      MinusIsNoBlank();
      NoBlankConcat([MINUS], Itoa(-n));
    } else {
      DigitsHaveNoBlank(Itoa(n));
    }
  }

  lemma MinusIsNoBlank()
    ensures !HasBlank([MINUS])
  {
  }

  lemma GoodConcat(a: seq<Step>, b: seq<Step>)
    requires AllGood(a) && AllGood(b)
    ensures AllGood(a + b)
  {
  }

  lemma ConsoleGood()
    ensures AllGood(ConsoleSteps())
  {
    hide Good, Console;
    GoodFlag("earlyprintk");
    EarlyconGood();
    GoodConsole("tty0");
    GoodConsole("ttyS0,115200n8");
  }

  lemma GoodFlag(key: string)
    requires Text(key) && |key| > 2 && !(|key| == 9 && key[0] == 'n') && !(key[0] == 'm' && key[1] == 'a')
    ensures Good(Put(Ascii(key), []))
  {
    hide HasBlank, Ordinary;
    NoneIsBlank();
    GoodKey(key);
  }

  lemma GoodPut(key: string, value: string)
    requires Text(key) && |key| > 2 && !(|key| == 9 && key[0] == 'n') && !(key[0] == 'm' && key[1] == 'a')
    requires Text(value)
    ensures Good(Put(Ascii(key), Ascii(value)))
  {
    hide HasBlank, Ordinary;
    GoodKey(key);
    TextHasNoBlank(value);
  }

  lemma EarlyconGood()
    ensures Good(Put(Ascii("earlycon"), Ascii("uart8250,io,") + Ascii("0x3f8,115200n8")))
  {
    hide HasBlank, Ordinary;
    GoodKey("earlycon");
    TextHasNoBlank("uart8250,io,");
    TextHasNoBlank("0x3f8,115200n8");
    NoBlankConcat(Ascii("uart8250,io,"), Ascii("0x3f8,115200n8"));
  }

  lemma GoodConsole(value: string)
    requires Text(value)
    ensures Good(Repeat(Console(), Ascii(value)))
  {
    hide HasBlank, Ordinary;
    GoodKey("console");
    TextHasNoBlank(value);
  }

  lemma LogGood(panic: int)
    ensures AllGood(LogSteps(panic))
  {
    hide Good, IntText;
    GoodPut("loglevel", "15");
    GoodPut("log_buf_len", "32M");
    PanicGood(panic);
    GoodFlag("nowatchdog");
    GoodPut("root", "/dev/md0");
    GoodFlag("rootwait");
  }

  lemma PanicGood(panic: int)
    ensures Good(Put(Ascii("panic"), IntText(panic)))
  {
    hide HasBlank, Ordinary, IntText;
    GoodKey("panic");
    IntHasNoBlank(panic);
  }

  lemma KernelGood(major: nat)
    ensures AllGood(KernelSteps(major))
  {
    hide HasBlank, Ordinary;
    GoodKey("split_lock_detect");
    GoodKey("module.sig_enforce");
    GoodKey("HddHotplug");
    TextHasNoBlank("off");
    TextHasNoBlank("0");
    TextHasNoBlank("1");
  }

  lemma SerialGood()
    ensures AllGood(SerialSteps())
  {
    hide HasBlank, Ordinary;
    GoodKey("syno_ttyS0");
    GoodKey("syno_ttyS1");
    TextHasNoBlank("serial,0x3f8");
    TextHasNoBlank("serial,0x2f8");
  }

  lemma DetectGood(name: Bytes)
    ensures AllGood(DetectSteps(name))
  {
    hide HasBlank, Ordinary, Broadwellnk;
    GoodKey("SMBusHddDynamicPower");
    GoodKey("syno_hdd_detect");
    GoodKey("syno_hdd_powerup_seq");
    TextHasNoBlank("0");
    TextHasNoBlank("1");
  }

  lemma DiskGood(ncq: bool, plat: Platform)
    ensures AllGood(DiskSteps(ncq, plat))
  {
    hide HasBlank, Ordinary, SerialSteps, DetectSteps;
    SerialGood();
    DetectGood(plat.name);
    GoodKey("libata.force");
    TextHasNoBlank("noncq");
    GoodConcat(if ncq then [] else [Put(Ascii("libata.force"), Ascii("noncq"))],
               if plat.dt then SerialSteps() else DetectSteps(plat.name));
  }

  predicate PolicyOk(p: StoragePolicy) { !HasBlank(p.portmap) && !HasBlank(p.idxMap) && !HasBlank(p.remap) }

  lemma PolicyGood(p: StoragePolicy)
    requires PolicyOk(p)
    ensures AllGood(PolicySteps(p))
  {
    hide HasBlank, Ordinary;
    GoodKey("SataPortMap");
    GoodKey("DiskIdxMap");
    GoodKey("sata_remap");
  }

  lemma PowerGood(plat: Platform)
    ensures AllGood(PowerSteps(plat))
  {
    hide HasBlank, Ordinary, Broadwellnk, Apollolake;
    GoodKey("pcie_aspm");
    GoodKey("intel_iommu");
    GoodKey("initcall_blacklist");
    TextHasNoBlank("off");
    TextHasNoBlank("igfx_off");
    TextHasNoBlank("i2c_i801_init");
  }

  predicate NoBlanks(words: seq<Bytes>) { forall i | 0 <= i < |words| :: !HasBlank(words[i]) }

  lemma BlacklistGood(modules: seq<Bytes>)
    requires NoBlanks(modules)
    ensures AllGood(BlacklistSteps(modules))
  {
    hide HasBlank, Ordinary;
    GoodKey("modprobe.blacklist");
    TextHasNoBlank("pgdrv");
  }

  lemma FixedGood(cfg: Config, plat: Platform, major: nat, policy: StoragePolicy)
    requires PolicyOk(policy) && NoBlanks(cfg.blacklist)
    ensures AllGood(FixedSteps(cfg, plat, major, policy))
  {
    hide ConsoleSteps, LogSteps, KernelSteps, DiskSteps, PolicySteps, PowerSteps, BlacklistSteps, AllGood;
    ConsoleGood();
    LogGood(cfg.panic);
    KernelGood(major);
    DiskGood(cfg.ncq, plat);
    PolicyGood(policy);
    PowerGood(plat);
    BlacklistGood(cfg.blacklist);
    var a := ConsoleSteps() + LogSteps(cfg.panic);
    GoodConcat(ConsoleSteps(), LogSteps(cfg.panic));
    GoodConcat(a, KernelSteps(major));
    GoodConcat(a + KernelSteps(major), DiskSteps(cfg.ncq, plat));
    GoodConcat(a + KernelSteps(major) + DiskSteps(cfg.ncq, plat), PolicySteps(policy));
    GoodConcat(a + KernelSteps(major) + DiskSteps(cfg.ncq, plat) + PolicySteps(policy), PowerSteps(plat));
    GoodConcat(a + KernelSteps(major) + DiskSteps(cfg.ncq, plat) + PolicySteps(policy) + PowerSteps(plat),
               BlacklistSteps(cfg.blacklist));
  }

  // ----- identity

  predicate IdentityOk(model: Bytes, id: Identity) { !HasBlank(model) && !HasBlank(id.serial) && NoBlanks(id.macs) }

  lemma SoundConcat(a: seq<Step>, b: seq<Step>)
    requires AllSound(a) && AllSound(b)
    ensures AllSound(a + b)
  {
  }

  lemma GoodIsSound(a: seq<Step>)
    requires AllGood(a)
    ensures AllSound(a) && !Mentions(a, Sn()) && !Mentions(a, NetifNum())
    ensures forall n: nat :: !Mentions(a, MacKey(n))
  {
    hide Sound, Ordinary, Sn, NetifNum, MacKey;
    forall i | 0 <= i < |a| ensures Sound(a[i]) && a[i].key != Sn() && a[i].key != NetifNum()
        && forall n: nat :: a[i].key != MacKey(n) {
      assert Good(a[i]);
      OrdinaryIsOther(a[i].key);
    }
  }

  lemma {:induction false} JoinHasNoBlank(words: seq<Bytes>)
    requires NoBlanks(words)
    ensures !HasBlank(Join(words, [COMMA]))
  {
    hide HasBlank;
    NoneIsBlank();
    CommaIsNoBlank();
    if |words| > 1 {
      JoinHasNoBlank(words[1..]);
      NoBlankConcat(words[0], [COMMA]);
      NoBlankConcat(words[0] + [COMMA], Join(words[1..], [COMMA]));
    }
  }

  lemma CommaIsNoBlank()
    ensures !HasBlank([COMMA])
  {
  }

  lemma IndicesHaveNoBlank(n: nat)
    ensures NoBlanks(Indices(n))
  {
    hide HasBlank, Itoa;
    forall i | 0 <= i < n ensures !HasBlank(Indices(n)[i]) {
      DigitsHaveNoBlank(Itoa(i));
    }
  }

  lemma AfterCardsGood(macs: seq<Bytes>)
    ensures AllGood(AfterCards(macs))
  {
    hide HasBlank, Ordinary, Indices;
    GoodSplitKey("skip_vender_", "mac_interfaces");
    GoodSplitKey("vender_format_", "version");
    TextHasNoBlank("2");
    IndicesHaveNoBlank(|macs|);
    JoinHasNoBlank(Indices(|macs|));
  }

  lemma MacKeyOk(n: nat)
    ensures MacKey(n) != [] && !HasBlank(MacKey(n)) && |MacKey(n)| > 3
    ensures MacKey(n) != Sn() && MacKey(n) != NetifNum()
  {
    hide Itoa, HasBlank;
    TextHasNoBlank("mac");
    DigitsHaveNoBlank(Itoa(n));
    NoBlankConcat(Ascii("mac"), Itoa(n));
    assert MacKey(n)[0] == 109 && NetifNum()[0] == 110;
  }

  lemma MacKeysDiffer(m: nat, n: nat)
    requires MacKey(m) == MacKey(n)
    ensures m == n
  {
    hide Itoa, DigitsValue;
    assert MacKey(m)[3..] == Itoa(m) && MacKey(n)[3..] == Itoa(n);
    ItoaReadsBack(m);
    ItoaReadsBack(n);
  }

  lemma MacsMention(macs: seq<Bytes>, n: nat)
    ensures Mentions(MacSteps(macs), MacKey(n)) <==> 1 <= n <= |macs|
    ensures !Mentions(MacSteps(macs), Sn()) && !Mentions(MacSteps(macs), NetifNum())
  {
    hide MacKey, Sn, NetifNum;
    if Mentions(MacSteps(macs), MacKey(n)) {
      var i :| 0 <= i < |macs| && MacSteps(macs)[i].key == MacKey(n);
      MacKeysDiffer(i + 1, n);
    }
    if 1 <= n <= |macs| {
      assert MacSteps(macs)[n - 1].key == MacKey(n);
    }
    forall i | 0 <= i < |macs| ensures MacSteps(macs)[i].key != Sn() && MacSteps(macs)[i].key != NetifNum() {
      MacKeyOk(i + 1);
    }
  }

  lemma MacsSound(macs: seq<Bytes>)
    requires NoBlanks(macs)
    ensures AllSound(MacSteps(macs))
  {
    hide HasBlank, MacKey;
    forall i | 0 <= i < |macs| ensures Sound(MacSteps(macs)[i]) {
      MacKeyOk(i + 1);
    }
  }

  lemma IdentitySound(model: Bytes, id: Identity)
    requires IdentityOk(model, id)
    ensures AllSound(IdentitySteps(model, id))
  {
    hide HasBlank, Itoa, MacSteps, AfterCards, Sound, AllGood;
    IdentityHeads(model, id);
    MacsSound(id.macs);
    AfterCardsGood(id.macs);
    GoodIsSound(AfterCards(id.macs));
    var heads, count := [Put(HwVersion(), model), Put(Sn(), id.serial)], [Put(NetifNum(), Itoa(|id.macs|))];
    SoundConcat(heads, MacSteps(id.macs));
    SoundConcat(heads + MacSteps(id.macs), count);
    SoundConcat(heads + MacSteps(id.macs) + count, AfterCards(id.macs));
  }

  lemma IdentityHeads(model: Bytes, id: Identity)
    requires IdentityOk(model, id)
    ensures AllSound([Put(HwVersion(), model), Put(Sn(), id.serial)]) && AllSound([Put(NetifNum(), Itoa(|id.macs|))])
  {
    hide HasBlank, Itoa;
    TextHasNoBlank("syno_hw_version");
    TextHasNoBlank("sn");
    TextHasNoBlank("netif_num");
    DigitsHaveNoBlank(Itoa(|id.macs|));
  }

  // ----- the parameters that come out

  predicate ParamSound(p: Param) { p.key != [] && !HasBlank(p.key) && !HasBlank(p.value) }

  predicate ParamsSound(ps: seq<Param>) { forall i | 0 <= i < |ps| :: ParamSound(ps[i]) }

  lemma SetSound(ps: seq<Param>, key: Bytes, value: Bytes)
    requires ParamsSound(ps) && ParamSound(Param(key, value))
    ensures ParamsSound(SetParam(ps, key, value))
  {
    hide ParamSound, FirstOf;
    FirstIn(ps, key);
  }

  lemma JoinedHasNoBlank(cur: Option<Bytes>, value: Bytes)
    requires !HasBlank(value) && (cur.Some? ==> !HasBlank(cur.value))
    ensures !HasBlank(Joined(cur, value))
  {
    hide HasBlank, Parts;
    CommaIsNoBlank();
    if cur.Some? {
      NoBlankConcat(cur.value, [COMMA]);
      NoBlankConcat(cur.value + [COMMA], value);
    }
  }

  lemma {:induction false} SoundStepsSoundParams(steps: seq<Step>)
    requires AllSound(steps)
    ensures ParamsSound(Applied(steps))
  {
    hide HasBlank, FirstOf, SetParam, Joined;
    if steps != [] {
      var front, s := steps[..|steps| - 1], steps[|steps| - 1];
      SoundStepsSoundParams(front);
      var ps := Applied(front);
      match s {
        case Put(k, v) => SetSound(ps, k, v);
        case Repeat(k, v) =>
        case Csv(k, v) =>
          FirstIn(ps, k);
          assert Sound(s);
          JoinedHasNoBlank(Value(ps, k), v);
          SetSound(ps, k, Joined(Value(ps, k), v));
      }
    }
  }

  lemma {:induction false} MentionedIsPresent(steps: seq<Step>, key: Bytes)
    requires Mentions(steps, key)
    ensures Value(Applied(steps), key).Some?
  {
    hide Value, Changed, Joined;
    var front, s := steps[..|steps| - 1], steps[|steps| - 1];
    StepMeans(Applied(front), s, key);
    if s.key != key {
      var i :| 0 <= i < |steps| && steps[i].key == key;
      assert front[i].key == key;
      MentionedIsPresent(front, key);
    }
  }

  // ----- a clean build

  /** The user's own entries leave the identity alone and hold no blanks. */
  predicate UserOk(user: map<Bytes, Bytes>) {
    forall k | k in user :: Sound(Put(k, user[k])) && k != Sn() && k != NetifNum()
        && forall n | 1 <= n <= 8 :: k != MacKey(n)
  }

  lemma UserSound(order: seq<Bytes>, user: map<Bytes, Bytes>)
    requires (forall k | k in order :: k in user) && UserOk(user)
    ensures var mine := UserSteps(order, user);
            && AllSound(mine) && !Mentions(mine, Sn()) && !Mentions(mine, NetifNum())
            && forall n: nat | 1 <= n <= 8 :: !Mentions(mine, MacKey(n))
  {
    hide HasBlank, Sn, NetifNum, MacKey;
    UserMentions(order, user, Sn());
    UserMentions(order, user, NetifNum());
    forall n: nat | 1 <= n <= 8 ensures !Mentions(UserSteps(order, user), MacKey(n)) {
      UserMentions(order, user, MacKey(n));
    }
    forall i | 0 <= i < |order| ensures Sound(UserSteps(order, user)[i]) {
      assert order[i] in order;
    }
  }

  predicate BuildOk(cfg: Config, id: Identity, policy: StoragePolicy) {
    && IdentityOk(cfg.model, id) && PolicyOk(policy) && NoBlanks(cfg.blacklist) && UserOk(cfg.user)
    && |id.macs| <= 8 && |id.serial| == 13
  }

  /** What the validation looks at: identity and cards come out as given. */
  lemma IdentityReadsBack(cfg: Config, plat: Platform, major: nat, id: Identity, policy: StoragePolicy,
                          order: seq<Bytes>)
    requires BuildOk(cfg, id, policy) && forall k | k in order :: k in cfg.user
    ensures var ps := Applied(BuildSteps(cfg, plat, major, id, policy, order));
            && Value(ps, HwVersion()).Some? && Value(ps, Sn()) == Some(id.serial)
            && Value(ps, NetifNum()) == Some(Itoa(|id.macs|))
            && forall n: nat | 1 <= n <= 8 :: Value(ps, MacKey(n)).Some? <==> n <= |id.macs|
  {
    hide FixedSteps, UserSteps, MacSteps, AfterCards, Value, Applied, Mentions, Sn, NetifNum, HwVersion, MacKey,
        Itoa, UserOk,
         IdentityOk, PolicyOk, AllGood, AllSound;
    var fixed, mine, macs := FixedSteps(cfg, plat, major, policy), UserSteps(order, cfg.user), MacSteps(id.macs);
    var hw, sn := Put(HwVersion(), cfg.model), Put(Sn(), id.serial);
    var netif, skip := Put(NetifNum(), Itoa(|id.macs|)), AfterCards(id.macs);
    FixedGood(cfg, plat, major, policy);
    GoodIsSound(fixed);
    AfterCardsGood(id.macs);
    GoodIsSound(skip);
    UserSound(order, cfg.user);
    var all := BuildSteps(cfg, plat, major, id, policy, order);
    var tail := skip + fixed + mine;
    assert all == [hw] + [sn] + (macs + [netif] + tail);
    assert all == [hw, sn] + macs + [netif] + tail;
    TailMentions(skip, fixed, mine, NetifNum());
    LastPutWins([hw, sn] + macs, NetifNum(), Itoa(|id.macs|), tail);
    TailMentions(skip, fixed, mine, Sn());
    MacsMention(id.macs, 0);
    CardsMention(macs, netif, tail, Sn());
    KeysAreThree();
    LastPutWins([hw], Sn(), id.serial, macs + [netif] + tail);
    HeadIsMentioned(hw, [sn] + (macs + [netif] + tail));
    assert all == [hw] + ([sn] + (macs + [netif] + tail));
    MentionedIsPresent(all, HwVersion());
    forall n: nat | 1 <= n <= 8 ensures Value(Applied(all), MacKey(n)).Some? <==> n <= |id.macs| {
      TailMentions(skip, fixed, mine, MacKey(n));
      MacsMention(id.macs, n);
      MacKeyOk(n);
      CardsMention(macs, netif, tail, MacKey(n));
      HeadsMention(hw, sn, macs + [netif] + tail, MacKey(n));
      MacIsNotModel(n);
      if n <= |id.macs| {
        MentionedIsPresent(all, MacKey(n));
      } else {
        UnmentionedIsAbsent(all, MacKey(n));
      }
    }
  }

  lemma MacIsNotModel(n: nat)
    ensures MacKey(n) != HwVersion()
  {
    hide Itoa;
    assert MacKey(n)[0] == 109 && HwVersion()[0] == 115;
  }

  lemma KeysAreThree()
    ensures Sn() != NetifNum() && HwVersion() != Sn()
  {
    assert |Sn()| == 2 && |NetifNum()| == 9 && |HwVersion()| == 15;
  }

  lemma TailMentions(skip: seq<Step>, fixed: seq<Step>, mine: seq<Step>, key: Bytes)
    ensures Mentions(skip + fixed + mine, key) <==> Mentions(skip, key) || Mentions(fixed, key) || Mentions(mine, key)
  {
    hide Mentions;
    MentionsConcat(skip, fixed, key);
    MentionsConcat(skip + fixed, mine, key);
  }

  lemma OneMentions(s: Step, key: Bytes)
    ensures Mentions([s], key) <==> s.key == key
  {
    assert [s][0] == s;
  }

  lemma CardsMention(macs: seq<Step>, netif: Step, tail: seq<Step>, key: Bytes)
    ensures Mentions(macs + [netif] + tail, key) <==> Mentions(macs, key) || netif.key == key || Mentions(tail, key)
  {
    hide Mentions;
    OneMentions(netif, key);
    MentionsConcat(macs, [netif], key);
    MentionsConcat(macs + [netif], tail, key);
  }

  lemma HeadsMention(hw: Step, sn: Step, rest: seq<Step>, key: Bytes)
    ensures Mentions([hw] + [sn] + rest, key) <==> hw.key == key || sn.key == key || Mentions(rest, key)
  {
    hide Mentions;
    OneMentions(hw, key);
    OneMentions(sn, key);
    MentionsConcat([hw], [sn], key);
    MentionsConcat([hw] + [sn], rest, key);
  }

  lemma HeadIsMentioned(hw: Step, rest: seq<Step>)
    ensures Mentions([hw] + rest, hw.key)
  {
    assert ([hw] + rest)[0] == hw;
  }

  lemma {:induction false} MacsAreCounted(ps: seq<Param>, cards: nat, n: nat)
    requires n <= 8 && forall m: nat | 1 <= m <= 8 :: Value(ps, MacKey(m)).Some? <==> m <= cards
    ensures MacCount(ps, n) == if n <= cards then n else cards
  {
    hide Value, MacKey;
    if n > 0 {
      MacsAreCounted(ps, cards, n - 1);
    }
  }

  lemma {:induction false} AllLeadingDigits(s: Bytes)
    requires AllDigits(s)
    ensures LeadingDigits(s) == s
  {
    if s != [] {
      AllLeadingDigits(s[1..]);
    }
  }

  lemma ScanOfItoa(n: nat)
    requires n < 0x8000_0000_0000_0000
    ensures ScanInt(Itoa(n)) == Some(n)
  {
    hide Itoa, DigitsValue, LeadingDigits;
    ItoaReadsBack(n);
    AllLeadingDigits(Itoa(n));
    assert IsDigit(Itoa(n)[0]);
    assert SkipBlanks(Itoa(n)) == Itoa(n);
  }

  /** With at most eight cards, a serial of thirteen characters, no blanks in any value, and user entries that leave sn,
      netif_num and the macs alone, the validation finds nothing. */
  lemma CleanBuildValidates(cfg: Config, plat: Platform, major: nat, id: Identity, policy: StoragePolicy,
                            order: seq<Bytes>, p: Problem)
    requires BuildOk(cfg, id, policy) && forall k | k in order :: k in cfg.user
    ensures !IsProblem(Applied(BuildSteps(cfg, plat, major, id, policy, order)), p)
  {
    hide BuildSteps, Applied, Value, CountOf, Sn, NetifNum, HwVersion, MacKey, Itoa, ScanInt, Console, HasBlank,
        UserOk, IdentityOk,
         PolicyOk, NoBlanks;
    var ps := Applied(BuildSteps(cfg, plat, major, id, policy, order));
    IdentityReadsBack(cfg, plat, major, id, policy, order);
    MacsAreCounted(ps, |id.macs|, 8);
    ScanOfItoa(|id.macs|);
    BuildSound(cfg, plat, major, id, policy, order);
    NoParamProblem(ps, p);
    if p.Repeated? && p.key != Console() {
      OnlyConsoleIsRepeated(cfg, plat, major, id, policy, order, p.key);
    }
  }

  lemma NoParamProblem(ps: seq<Param>, p: Problem)
    requires ParamsSound(ps)
    ensures !AnyParamProblem(ps, p)
  {
    hide HasBlank;
    forall i | 0 <= i < |ps| ensures !ParamProblem(ps[i], p) {
      assert ParamSound(ps[i]);
    }
  }

  lemma BuildSound(cfg: Config, plat: Platform, major: nat, id: Identity, policy: StoragePolicy, order: seq<Bytes>)
    requires BuildOk(cfg, id, policy) && forall k | k in order :: k in cfg.user
    ensures ParamsSound(Applied(BuildSteps(cfg, plat, major, id, policy, order)))
  {
    hide FixedSteps, UserSteps, IdentitySteps, Applied, UserOk, IdentityOk, PolicyOk, AllGood, AllSound, ParamsSound,
        NoBlanks,
         Mentions, MacKey, Sn, NetifNum;
    var fixed, mine, identity := FixedSteps(cfg, plat, major, policy), UserSteps(order, cfg.user),
        IdentitySteps(cfg.model, id);
    FixedGood(cfg, plat, major, policy);
    GoodIsSound(fixed);
    IdentitySound(cfg.model, id);
    UserSound(order, cfg.user);
    SoundConcat(identity, fixed);
    SoundConcat(identity + fixed, mine);
    SoundStepsSoundParams(identity + fixed + mine);
  }
}
