/** The keys of the command line that hold more than one value: the module blacklist and the consoles. */
module BuildLists {
  import opened GoStrings
  import opened CommandLine
  import opened BuildLine
  import opened BuildChecks
  import opened BuildValues
  import opened BuildTexts
  import DsmPolicy

  // ----- the blacklist

  /** What is read after each word was added to the list. */
  function Listed(words: seq<Bytes>): Option<Bytes>
    ensures Listed(words).Some? <==> words != []
  {
    if words == [] then None else Some(Joined(Listed(words[..|words| - 1]), words[|words| - 1]))
  }

  lemma {:induction false} ListedIsAfter(steps: seq<Step>, words: seq<Bytes>, key: Bytes)
    requires |steps| == |words| && forall i | 0 <= i < |steps| :: steps[i] == Csv(key, words[i])
    ensures After(None, steps, key) == Listed(words)
    decreases |steps|
  {
    hide Joined;
    if steps != [] {
      var n := |steps| - 1;
      ListedIsAfter(steps[..n], words[..n], key);
    }
  }

  lemma JoinedParts(cur: Option<Bytes>, w: Bytes)
    ensures Parts(Joined(cur, w), COMMA)
            == if cur.None? || cur.value == [] then Parts(w, COMMA)
               else if w in Parts(cur.value, COMMA) then Parts(cur.value, COMMA)
               else Parts(cur.value, COMMA) + Parts(w, COMMA)
  {
    hide Parts;
    if cur.Some? && cur.value != [] && w !in Parts(cur.value, COMMA) {
      PartsOfConcat(cur.value, w, COMMA);
    }
  }

  /** A word that is one entry is in the list, whatever comes before and after it. */
  lemma {:induction false} WordIsListed(words: seq<Bytes>, w: Bytes)
    requires w in words && w != [] && COMMA !in w
    ensures w in Parts(Listed(words).value, COMMA)
    decreases |words|
  {
    hide Parts, Joined;
    var front, last := words[..|words| - 1], words[|words| - 1];
    JoinedParts(Listed(front), last);
    if w == last {
      OnePart(w, COMMA);
      assert Parts(w, COMMA)[0] == w;
    } else {
      WordIsListed(front, w);
      EmptyHasOnePart();
    }
  }

  lemma EmptyHasOnePart()
    ensures Parts([], COMMA) == [[]]
  {
    OnePart([], COMMA);
  }

  /** Every entry of the list is an entry of one of the words. */
  lemma {:induction false} ListedIsAWord(words: seq<Bytes>, p: Bytes)
    requires words != [] && p in Parts(Listed(words).value, COMMA)
    ensures exists i | 0 <= i < |words| :: p in Parts(words[i], COMMA)
    decreases |words|
  {
    hide Parts, Joined;
    var front, last := words[..|words| - 1], words[|words| - 1];
    JoinedParts(Listed(front), last);
    if p in Parts(last, COMMA) {
      assert words[|words| - 1] == last;
    } else {
      ListedIsAWord(front, p);
      var i :| 0 <= i < |front| && p in Parts(front[i], COMMA);
      assert words[i] == front[i];
    }
  }

  predicate NoTwice(words: seq<Bytes>) { forall i, j | 0 <= i < j < |words| :: words[i] != words[j] }

  lemma {:induction false} ListedOnce(words: seq<Bytes>)
    requires words != [] && forall i | 0 <= i < |words| :: COMMA !in words[i]
    ensures NoTwice(Parts(Listed(words).value, COMMA))
    decreases |words|
  {
    hide Parts, Joined;
    var front, last := words[..|words| - 1], words[|words| - 1];
    JoinedParts(Listed(front), last);
    OnePart(last, COMMA);
    if front != [] {
      assert forall i | 0 <= i < |front| :: front[i] == words[i];
      ListedOnce(front);
    }
  }

  /** pgdrv and every module the user names are on the list, and nothing else; a module named twice is there once. */
  predicate BlacklistHolds(list: Bytes, modules: seq<Bytes>) {
    var parts := Parts(list, COMMA);
    && IsText("pgdrv") && Ascii("pgdrv") in parts
    && (forall i | 0 <= i < |modules| && modules[i] != [] && COMMA !in modules[i] :: modules[i] in parts)
    && (forall p | p in parts && p != Ascii("pgdrv") :: exists i | 0 <= i < |modules| :: p in Parts(modules[i], COMMA))
    && ((forall i | 0 <= i < |modules| :: COMMA !in modules[i]) ==> NoTwice(parts))
  }

  lemma PgdrvIsOneWord()
    ensures IsText("pgdrv") && Ascii("pgdrv") != [] && COMMA !in Ascii("pgdrv")
  {
  }

  lemma ListHolds(modules: seq<Bytes>)
    ensures BlacklistHolds(Listed(modules + [Ascii("pgdrv")]).value, modules)
  {
    hide Listed, Parts, IsText, NoTwice;
    PgdrvIsOneWord();
    var pgdrv := Ascii("pgdrv");
    var words := modules + [pgdrv];
    assert words[|modules|] == pgdrv;
    WordIsListed(words, pgdrv);
    var list := Listed(words).value;
    forall i | 0 <= i < |modules| && modules[i] != [] && COMMA !in modules[i]
      ensures modules[i] in Parts(list, COMMA)
    {
      assert words[i] == modules[i];
      WordIsListed(words, modules[i]);
    }
    forall p | p in Parts(list, COMMA) && p != pgdrv
      ensures exists i | 0 <= i < |modules| :: p in Parts(modules[i], COMMA)
    {
      ListedIsAWord(words, p);
      OnePart(pgdrv, COMMA);
      var i :| 0 <= i < |words| && p in Parts(words[i], COMMA);
      assert i < |modules| && words[i] == modules[i];
    }
    if forall i | 0 <= i < |modules| :: COMMA !in modules[i] {
      ListedOnce(words);
    }
  }

  lemma BlacklistIs(modules: seq<Bytes>)
    ensures After(None, BlacklistSteps(modules), BlacklistKey()) == Listed(modules + [Ascii("pgdrv")])
  {
    hide After, Listed, BlacklistKey;
    ListedIsAfter(BlacklistSteps(modules), modules + [Ascii("pgdrv")], BlacklistKey());
  }

  lemma BlacklistReads(r: Request, order: seq<Bytes>) returns (list: Bytes)
    requires DsmPolicy.KeyOrder(order, r.cfg.user.Keys)
    ensures Gives(r, order, "modprobe.blacklist", list) && BlacklistHolds(list, r.cfg.blacklist)
  {
    hide Listed, After, Says, BlacklistHolds, BlacklistSteps, Kind, TagOf, DsmPolicy.Ascending;
    list := Listed(r.cfg.blacklist + [Ascii("pgdrv")]).value;
    ListHolds(r.cfg.blacklist);
    ModprobeBlacklistKind();
    SectionSays(r, order, 7, BlacklistKey());
    BlacklistIs(r.cfg.blacklist);
  }

  // ----- the consoles

  /** The values of all copies of a key, in order. */
  function Copies(ps: seq<Param>, key: Bytes): seq<Bytes> {
    if ps == [] then []
    else Copies(ps[..|ps| - 1], key) + if ps[|ps| - 1].key == key then [ps[|ps| - 1].value] else []
  }

  lemma CopyAdded(ps: seq<Param>, p: Param, key: Bytes)
    ensures Copies(ps + [p], key) == Copies(ps, key) + if p.key == key then [p.value] else []
  {
    assert (ps + [p])[..|ps|] == ps;
  }

  lemma {:induction false} CopiesKept(ps: seq<Param>, i: nat, p: Param, key: Bytes)
    requires i < |ps| && ps[i].key == p.key != key
    ensures Copies(ps[i := p], key) == Copies(ps, key)
    decreases |ps|
  {
    var last := |ps| - 1;
    assert ps[i := p][..last] == if i < last then ps[..last][i := p] else ps[..last];
    if i < last {
      CopiesKept(ps[..last], i, p, key);
    }
  }

  lemma {:induction false} NoCopies(ps: seq<Param>, key: Bytes)
    requires forall i | 0 <= i < |ps| :: ps[i].key != key
    ensures Copies(ps, key) == []
    decreases |ps|
  {
    if ps != [] {
      assert forall i | 0 <= i < |ps| - 1 :: ps[..|ps| - 1][i] == ps[i];
      NoCopies(ps[..|ps| - 1], key);
    }
  }

  lemma {:induction false} FirstCopySet(ps: seq<Param>, i: nat, p: Param)
    requires i < |ps| && ps[i].key == p.key && forall j | 0 <= j < i :: ps[j].key != p.key
    ensures |Copies(ps, p.key)| > 0 && Copies(ps[i := p], p.key) == Copies(ps, p.key)[0 := p.value]
    decreases |ps|
  {
    var last := |ps| - 1;
    assert ps[i := p][..last] == if i < last then ps[..last][i := p] else ps[..last];
    if i < last {
      assert forall j | 0 <= j < last :: ps[..last][j] == ps[j];
      FirstCopySet(ps[..last], i, p);
    } else {
      assert forall j | 0 <= j < last :: ps[..last][j] == ps[j];
      NoCopies(ps[..last], p.key);
    }
  }

  /** Setting a key replaces its first copy and leaves the others. */
  lemma SetCopies(ps: seq<Param>, key: Bytes, value: Bytes, other: Bytes)
    ensures var was := Copies(ps, other);
            Copies(SetParam(ps, key, value), other)
            == if key != other then was else if was == [] then [value] else was[0 := value]
  {
    hide Copies, FirstOf;
    FirstIn(ps, key);
    NoneBeforeFirst(ps, key);
    var i, p := FirstOf(ps, key), Param(key, value);
    if i < |ps| {
      if key == other {
        FirstCopySet(ps, i, p);
      } else {
        CopiesKept(ps, i, p, other);
      }
    } else {
      CopyAdded(ps, p, other);
      if key == other {
        NoCopies(ps, key);
      }
    }
  }

  lemma {:induction false} CopiesStay(before: seq<Step>, after: seq<Step>, key: Bytes)
    requires !Mentions(after, key)
    ensures Copies(Applied(before + after), key) == Copies(Applied(before), key)
    decreases |after|
  {
    hide Copies, SetParam, Joined;
    if after == [] {
      assert before + after == before;
    } else {
      var front, s := after[..|after| - 1], after[|after| - 1];
      assert (before + after)[..|before + after| - 1] == before + front;
      assert forall i | 0 <= i < |front| :: front[i] == after[i];
      CopiesStay(before, front, key);
      var ps := Applied(before + front);
      match s {
        case Put(k, v) => SetCopies(ps, k, v, key);
        case Repeat(k, v) => CopyAdded(ps, Param(k, v), key);
        case Csv(k, v) => SetCopies(ps, k, Joined(Value(ps, k), v), key);
      }
    }
  }

  /** The steps between the consoles and the user's own. */
  function AfterConsoles(r: Request): seq<Step> {
    LogSteps(r.cfg.panic) + KernelSteps(r.major) + DiskSteps(r.cfg.ncq, r.plat) + PolicySteps(r.policy)
    + PowerSteps(r.plat) + BlacklistSteps(r.cfg.blacklist)
  }

  lemma ConsoleElsewhere(r: Request, k: nat)
    requires k != 1
    ensures !Mentions(Section(r, k), Console())
  {
    hide Section, Kind, TagOf, Mentions;
    SectionKind(r, k);
    ConsoleKind();
    OtherKind(Section(r, k), k, Console());
  }

  lemma NoConsoleAfter(r: Request)
    ensures !Mentions(AfterConsoles(r), Console())
  {
    hide LogSteps, KernelSteps, DiskSteps, PolicySteps, PowerSteps, BlacklistSteps, Mentions, Console;
    ConsoleElsewhere(r, 2);
    ConsoleElsewhere(r, 3);
    ConsoleElsewhere(r, 4);
    ConsoleElsewhere(r, 5);
    ConsoleElsewhere(r, 6);
    ConsoleElsewhere(r, 7);
    var log, kernel, disk := LogSteps(r.cfg.panic), KernelSteps(r.major), DiskSteps(r.cfg.ncq, r.plat);
    var policy, power, blacklist := PolicySteps(r.policy), PowerSteps(r.plat), BlacklistSteps(r.cfg.blacklist);
    MentionsConcat(log, kernel, Console());
    MentionsConcat(log + kernel, disk, Console());
    MentionsConcat(log + kernel + disk, policy, Console());
    MentionsConcat(log + kernel + disk + policy, power, Console());
    MentionsConcat(log + kernel + disk + policy + power, blacklist, Console());
  }

  lemma TwoConsoles(before: seq<Step>)
    requires !Mentions(before, Console())
    ensures IsText("tty0") && IsText("ttyS0,115200n8")
    ensures Copies(Applied(before + ConsoleSteps()), Console()) == [Ascii("tty0"), Ascii("ttyS0,115200n8")]
  {
    hide Copies, Mentions, Changed, Applied;
    var early := ConsoleSteps()[..2];
    var a, b := Repeat(Console(), Ascii("tty0")), Repeat(Console(), Ascii("ttyS0,115200n8"));
    var start := before + early;
    EarlyIsNoConsole();
    MentionsConcat(before, early, Console());
    NothingCopied(start, Console());
    RepeatCopies(start, a);
    RepeatCopies(start + [a], b);
    assert before + ConsoleSteps() == start + [a] + [b];
  }

  lemma EarlyIsNoConsole()
    ensures !Mentions(ConsoleSteps()[..2], Console())
  {
    var s := ConsoleSteps()[..2];
    assert |s[0].key| == 11 && |s[1].key| == 8 && |Console()| == 7;
  }

  lemma NothingCopied(steps: seq<Step>, key: Bytes)
    requires !Mentions(steps, key)
    ensures Copies(Applied(steps), key) == []
  {
    hide Mentions;
    CopiesStay([], steps, key);
    assert [] + steps == steps;
  }

  lemma RepeatCopies(before: seq<Step>, s: Step)
    requires s.Repeat?
    ensures Copies(Applied(before + [s]), s.key) == Copies(Applied(before), s.key) + [s.value]
  {
    hide Copies;
    assert (before + [s])[..|before|] == before;
    CopyAdded(Applied(before), Param(s.key, s.value), s.key);
  }

  lemma PutCopies(before: seq<Step>, key: Bytes, value: Bytes)
    requires Copies(Applied(before), key) != []
    ensures Copies(Applied(before + [Put(key, value)]), key) == Copies(Applied(before), key)[0 := value]
  {
    hide Copies, SetParam;
    assert (before + [Put(key, value)])[..|before|] == before;
    SetCopies(Applied(before), key, value, key);
  }

  lemma UserSetsFirst(base: seq<Step>, order: seq<Bytes>, user: map<Bytes, Bytes>, key: Bytes)
    requires DsmPolicy.KeyOrder(order, user.Keys) && Copies(Applied(base), key) != []
    ensures var was := Copies(Applied(base), key);
            Copies(Applied(base + UserSteps(order, user)), key) == if key in user then was[0 := user[key]] else was
  {
    hide UserSteps, Applied, Copies, Mentions, Less;
    var mine := UserSteps(order, user);
    UserMentions(order, user, key);
    if key in user {
      var i :| 0 <= i < |order| && order[i] == key;
      UserSplits(order, user, i);
      var after := order[i + 1..];
      assert key !in after by {
        LessIsStrict(key, key);
      }
      UserMentions(after, user, key);
      FirstOrder(order, user, i);
      CopiesStay(base, mine[..i], key);
      PutCopies(base + mine[..i], key, user[key]);
      CopiesStay(base + mine[..i] + [Put(key, user[key])], UserSteps(after, user), key);
      assert base + mine == base + mine[..i] + [Put(key, user[key])] + UserSteps(after, user);
    } else {
      CopiesStay(base, mine, key);
    }
  }

  lemma FirstOrder(order: seq<Bytes>, user: map<Bytes, Bytes>, i: nat)
    requires DsmPolicy.KeyOrder(order, user.Keys) && i < |order|
    ensures !Mentions(UserSteps(order, user)[..i], order[i])
  {
    hide Less;
    LessIsStrict(order[i], order[i]);
  }

  /** Both consoles stand on the line, the screen first, so that the serial line is what /dev/console becomes; an entry
      of the user's replaces the screen. */
  predicate ConsolesAre(r: Request, order: seq<Bytes>, first: string, second: string)
    requires DsmPolicy.KeyOrder(order, r.cfg.user.Keys)
  {
    && IsText("console") && IsText(first) && IsText(second)
    && var user, key := r.cfg.user, Ascii("console");
    && Copies(Applied(BuildSteps(r.cfg, r.plat, r.major, r.id, r.policy, order)), key)
       == [if key in user then user[key] else Ascii(first), Ascii(second)]
  }

  lemma ConsolesRead(r: Request, order: seq<Bytes>)
    requires DsmPolicy.KeyOrder(order, r.cfg.user.Keys)
    ensures ConsolesAre(r, order, "tty0", "ttyS0,115200n8")
  {
    hide IdentitySteps, ConsoleSteps, LogSteps, KernelSteps, DiskSteps, PolicySteps, PowerSteps, BlacklistSteps;
    hide UserSteps, AfterConsoles, Copies, Applied, Mentions, DsmPolicy.Ascending;
    var identity, rest, key := IdentitySteps(r.cfg.model, r.id), AfterConsoles(r), Console();
    var base := identity + ConsoleSteps() + rest;
    ConsoleElsewhere(r, 0);
    TwoConsoles(identity);
    NoConsoleAfter(r);
    CopiesStay(identity + ConsoleSteps(), rest, key);
    UserSetsFirst(base, order, r.cfg.user, key);
    BuildIs(r, order);
  }

  lemma BuildIs(r: Request, order: seq<Bytes>)
    requires DsmPolicy.KeyOrder(order, r.cfg.user.Keys)
    ensures BuildSteps(r.cfg, r.plat, r.major, r.id, r.policy, order)
            == IdentitySteps(r.cfg.model, r.id) + ConsoleSteps() + AfterConsoles(r) + UserSteps(order, r.cfg.user)
  {
    hide IdentitySteps, ConsoleSteps, LogSteps, KernelSteps, DiskSteps, PolicySteps, PowerSteps, BlacklistSteps;
    hide UserSteps, DsmPolicy.Ascending;
    assert FixedSteps(r.cfg, r.plat, r.major, r.policy) == ConsoleSteps() + AfterConsoles(r);
  }
}
