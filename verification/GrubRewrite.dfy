/** The boot menu file under rewrites, restores and power cuts: cmd/vibeldr-boot/grub_rewrite_linux.go. */
module GrubRewrite {
  import opened GoStrings

  /** grub.cfg, its backup, and the temporary name each is written under. */
  datatype Name = Target | TargetNew | Backup | BackupNew

  type Inode = nat
  type Dir = map<Name, Inode>

  datatype Op = Link(name: Name, inode: Inode) | Rename(from: Name, to: Name, inode: Inode) | Unlink(name: Name)

  function Apply(op: Op, d: Dir): Dir {
    match op
    case Link(n, i) => d[n := i]
    case Rename(from, to, i) => (d - {from})[to := i]
    case Unlink(n) => d - {n}
  }

  /** `live` is the directory as programs see it; a power cut may leave any of `possible`. The contents of an
      inode outside `synced` are not yet safe on the disk. */
  datatype Disk = Disk(live: Dir, possible: set<Dir>, bytes: map<Inode, Bytes>, synced: set<Inode>)

  /** What the environment guarantees: directory operations reach the disk in order; syncing a directory
      succeeds; looking for and reading a file that is there succeeds. */
  datatype Env = Env(ordered: bool, dirSyncs: bool, readable: bool)

  datatype Stage = Opening | Writing(done: nat) | Renaming | SyncingDir | Removing

  /** Where the running program stands: inside writeAtomic(dest, data), perhaps with one more to follow. */
  datatype Pc = Idle | Atomic(dest: Name, data: Bytes, stage: Stage, andThen: Option<Bytes>)

  /** `rendered` collects every menu a rewrite has been asked for. */
  datatype State = State(disk: Disk, pc: Pc, rendered: set<Bytes>)

  function Tmp(dest: Name): Name { if dest == Backup then BackupNew else TargetNew }

  function DirOp(env: Env, d: Disk, op: Op): Disk {
    d.(live := Apply(op, d.live),
       possible := d.possible + if env.ordered then {Apply(op, d.live)} else set e | e in d.possible :: Apply(op, e))
  }

  function WithStage(s: State, stage: Stage): State
    requires s.pc.Atomic?
  {
    s.(pc := s.pc.(stage := stage))
  }

  // ----- the steps

  /** RewriteGrubConfig: back up first when there is no backup and grub.cfg can be read. */
  ghost predicate BeginRewrite(env: Env, s: State, menu: Bytes, s': State) {
    && s.pc.Idle?
    && var d := s.disk;
       var seen := s.(rendered := s.rendered + {menu});
       || (s' == seen.(pc := Atomic(Target, menu, Opening, None))
           && (Backup in d.live || Target !in d.live || !env.readable))
       || (Backup !in d.live && Target in d.live && d.live[Target] in d.bytes
           && s' == seen.(pc := Atomic(Backup, d.bytes[d.live[Target]], Opening, Some(menu))))
  }

  /** RestoreGrubBackup: nothing is written when the backup cannot be read. */
  ghost predicate BeginRestore(s: State, s': State) {
    && s.pc.Idle? && Backup in s.disk.live && s.disk.live[Backup] in s.disk.bytes
    && s' == s.(pc := Atomic(Target, s.disk.bytes[s.disk.live[Backup]], Opening, None))
  }

  /** Creating the temporary file, or cutting an old one to nothing. */
  ghost predicate OpenTmp(env: Env, s: State, i: Inode, s': State) {
    && s.pc.Atomic? && s.pc.stage == Opening
    && var d, tmp := s.disk, Tmp(s.pc.dest);
       var emptied := d.(bytes := d.bytes[i := []], synced := d.synced - {i});
       && (if tmp in d.live then i == d.live[tmp] else i !in d.bytes)
       && s' == WithStage(s, Writing(0)).(disk := if tmp in d.live then emptied else DirOp(env, emptied, Link(tmp, i)))
  }

  ghost predicate WriteSome(s: State, m: nat, s': State) {
    && s.pc.Atomic? && s.pc.stage.Writing? && s.pc.stage.done < m <= |s.pc.data| && Tmp(s.pc.dest) in s.disk.live
    && var d, i := s.disk, s.disk.live[Tmp(s.pc.dest)];
       s' == WithStage(s, Writing(m)).(disk := d.(bytes := d.bytes[i := s.pc.data[..m]], synced := d.synced - {i}))
  }

  ghost predicate SyncFile(s: State, s': State) {
    && s.pc.Atomic? && s.pc.stage == Writing(|s.pc.data|) && Tmp(s.pc.dest) in s.disk.live
    && s' == WithStage(s, Renaming).(disk := s.disk.(synced := s.disk.synced + {s.disk.live[Tmp(s.pc.dest)]}))
  }

  ghost predicate RenameTmp(env: Env, s: State, s': State) {
    && s.pc.Atomic? && s.pc.stage == Renaming && Tmp(s.pc.dest) in s.disk.live
    && var tmp := Tmp(s.pc.dest);
       s' == WithStage(s, SyncingDir).(disk := DirOp(env, s.disk, Rename(tmp, s.pc.dest, s.disk.live[tmp])))
  }

  /** The directory sync, whose outcome is not looked at, and what the caller does next. */
  ghost predicate SyncDir(env: Env, s: State, s': State) {
    && s.pc.Atomic? && s.pc.stage == SyncingDir
    && var next := s.(pc := if s.pc.andThen.Some? then Atomic(Target, s.pc.andThen.value, Opening, None) else Idle);
       || s' == next.(disk := s.disk.(possible := {s.disk.live}))
       || (!env.dirSyncs && s' == next)
  }

  /** A failed step ends the call, after trying to remove the temporary file. */
  ghost predicate Fail(s: State, s': State) {
    && s.pc.Atomic? && s.pc.stage != SyncingDir && s.pc.stage != Removing
    && s' == if s.pc.stage == Opening then s.(pc := Idle) else WithStage(s, Removing)
  }

  ghost predicate RemoveTmp(env: Env, s: State, s': State) {
    && s.pc.Atomic? && s.pc.stage == Removing
    && (s' == s.(pc := Idle) || s' == s.(pc := Idle, disk := DirOp(env, s.disk, Unlink(Tmp(s.pc.dest)))))
  }

  /** After a power cut the directory is one of the possible ones and unsynced contents are anything at all. */
  ghost predicate PowerCut(s: State, d: Dir, s': State) {
    && s'.pc == Idle && s'.rendered == s.rendered && d in s.disk.possible
    && s'.disk.live == d && s'.disk.possible == {d}
    && s'.disk.bytes.Keys == s.disk.bytes.Keys && s'.disk.synced == s.disk.bytes.Keys
    && forall i <- s.disk.synced :: i in s.disk.bytes ==> s'.disk.bytes[i] == s.disk.bytes[i]
  }

  ghost predicate Step(env: Env, s: State, s': State) {
    || (exists menu :: BeginRewrite(env, s, menu, s'))
    || BeginRestore(s, s')
    || (exists i :: OpenTmp(env, s, i, s'))
    || (exists m :: WriteSome(s, m, s'))
    || SyncFile(s, s')
    || RenameTmp(env, s, s')
    || SyncDir(env, s, s')
    || Fail(s, s')
    || RemoveTmp(env, s, s')
    || (exists d :: PowerCut(s, d, s'))
  }

  /** The bootstrap's grub.cfg, safe on the disk, and no backup. */
  ghost predicate Initial(original: Bytes, s: State) {
    && s.pc == Idle && s.rendered == {}
    && s.disk.possible == {s.disk.live}
    && Target in s.disk.live && s.disk.live.Keys == {Target}
    && s.disk.live[Target] in s.disk.synced && s.disk.live[Target] in s.disk.bytes
    && s.disk.bytes[s.disk.live[Target]] == original
  }

  ghost predicate IsRun(env: Env, original: Bytes, run: seq<State>)
    ensures IsRun(env, original, run) ==> run != []
  {
    && run != [] && Initial(original, run[0])
    && forall i | 0 < i < |run| :: Step(env, run[i - 1], run[i])
  }

  // ----- safety

  /** The contents an inode is certain to have after a power cut. */
  predicate HoldsSafely(d: Disk, i: Inode, b: Bytes) { i in d.synced && i in d.bytes && d.bytes[i] == b }

  /** grub.cfg is the original or a complete menu; the backup, if there, is the original; without a backup
      grub.cfg is still the original. */
  ghost predicate DirSafe(original: Bytes, rendered: set<Bytes>, disk: Disk, d: Dir) {
    && Target in d
    && d[Target] in disk.synced && d[Target] in disk.bytes
    && (disk.bytes[d[Target]] == original || disk.bytes[d[Target]] in rendered)
    && (if Backup in d then HoldsSafely(disk, d[Backup], original) else disk.bytes[d[Target]] == original)
  }

  /** Safe now and in whatever a power cut leaves. */
  ghost predicate Safe(original: Bytes, s: State) {
    s.disk.live in s.disk.possible && forall d <- s.disk.possible :: DirSafe(original, s.rendered, s.disk, d)
  }

  /** No temporary name shares an inode with grub.cfg or its backup, nor with the other temporary name. */
  predicate DirApart(disk: Disk, d: Dir) {
    && (forall n <- d :: d[n] in disk.bytes)
    && (forall n <- d, m <- d :: n != m && IsTmp(n) ==> d[n] != d[m])
  }

  predicate IsTmp(n: Name) { n == TargetNew || n == BackupNew }

  /** What is now written under a temporary name stands under no other name in any possible directory. */
  predicate TmpApart(disk: Disk) { forall d <- disk.possible :: Clear(disk.live, d) }

  /** What `live` has under a temporary name, d has under no other name. */
  predicate Clear(live: Dir, d: Dir) { forall n <- live, m <- d :: IsTmp(n) && m != n ==> live[n] != d[m] }

  ghost predicate BackupEverywhere(env: Env, disk: Disk) {
    Backup in disk.live && (env.ordered || forall d <- disk.possible :: Backup in d)
  }

  ghost predicate PcOk(env: Env, original: Bytes, s: State) {
    s.pc.Atomic? ==>
      && (s.pc.dest == Backup || s.pc.dest == Target)
      && (s.pc.dest == Backup ==> s.pc.data == original && (s.pc.andThen.Some? ==> s.pc.andThen.value in s.rendered))
      && (s.pc.dest == Target ==>
            && s.pc.andThen.None?
            && (s.pc.data == original || (s.pc.data in s.rendered && BackupEverywhere(env, s.disk))))
      && (s.pc.stage.Writing? ==>
            && Tmp(s.pc.dest) in s.disk.live && s.pc.stage.done <= |s.pc.data|
            && s.disk.live[Tmp(s.pc.dest)] in s.disk.bytes
            && s.disk.bytes[s.disk.live[Tmp(s.pc.dest)]] == s.pc.data[..s.pc.stage.done])
      && (s.pc.stage == Renaming ==>
            Tmp(s.pc.dest) in s.disk.live && HoldsSafely(s.disk, s.disk.live[Tmp(s.pc.dest)], s.pc.data))
      && (s.pc.stage == SyncingDir && s.pc.dest == Backup ==> Backup in s.disk.live)
  }

  /** Between calls a backup that is seen is already in every possible directory. */
  ghost predicate BackupSettled(env: Env, s: State) {
    Backup in s.disk.live ==>
      BackupEverywhere(env, s.disk) || (s.pc.Atomic? && s.pc.dest == Backup && s.pc.stage == SyncingDir)
  }

  ghost predicate Inv(env: Env, original: Bytes, s: State) {
    && Safe(original, s)
    && (forall d <- s.disk.possible :: DirApart(s.disk, d))
    && TmpApart(s.disk) && BackupSettled(env, s)
    && PcOk(env, original, s)
  }

  /** The environments in which the file stays safe. */
  predicate Careful(env: Env) { (env.ordered || env.dirSyncs) && env.readable }

  lemma AfterDirOp(env: Env, d: Disk, op: Op, e: Dir)
    requires d.live in d.possible && e in DirOp(env, d, op).possible
    ensures e in d.possible || (exists f :: f in d.possible && e == Apply(op, f) && (env.ordered ==> f == d.live))
    ensures DirOp(env, d, op).live in DirOp(env, d, op).possible
  {
  }

  lemma InitialInv(env: Env, original: Bytes, s: State)
    requires Initial(original, s)
    ensures Inv(env, original, s)
  {
  }

  lemma BeginKeeps(env: Env, original: Bytes, s: State, menu: Bytes, s': State)
    requires Inv(env, original, s) && Careful(env)
    requires BeginRewrite(env, s, menu, s') || BeginRestore(s, s')
    ensures Inv(env, original, s')
  {
    assert DirSafe(original, s.rendered, s.disk, s.disk.live);
  }

  /** Inode i is neither grub.cfg nor the backup in any possible directory. */
  predicate Untouched(disk: Disk, i: Inode) {
    forall d <- disk.possible, m <- d :: m == Target || m == Backup ==> d[m] != i
  }

  ghost predicate AllSafe(original: Bytes, rendered: set<Bytes>, disk: Disk) {
    && disk.live in disk.possible
    && (forall d <- disk.possible :: DirSafe(original, rendered, disk, d))
    && (forall d <- disk.possible :: DirApart(disk, d))
  }

  function WithBytes(disk: Disk, i: Inode, b: Bytes): Disk {
    disk.(bytes := disk.bytes[i := b], synced := disk.synced - {i})
  }

  lemma WritingKeepsSafe(original: Bytes, rendered: set<Bytes>, disk: Disk, i: Inode, b: Bytes)
    requires AllSafe(original, rendered, disk) && Untouched(disk, i)
    ensures AllSafe(original, rendered, WithBytes(disk, i, b))
  {
    forall d <- disk.possible ensures DirSafe(original, rendered, WithBytes(disk, i, b), d) {
      assert DirSafe(original, rendered, disk, d);
      assert d[Target] != i && (Backup in d ==> d[Backup] != i);
    }
  }

  /** A directory operation keeps apart what each directory keeps apart, changed or not. */
  lemma ClearAfter(env: Env, disk: Disk, op: Op)
    requires disk.live in disk.possible
    requires forall f <- disk.possible :: Clear(Apply(op, disk.live), f) && Clear(Apply(op, disk.live), Apply(op, f))
    ensures TmpApart(DirOp(env, disk, op))
  {
    hide Clear, Apply;
    forall e <- DirOp(env, disk, op).possible ensures Clear(Apply(op, disk.live), e) {
      AfterDirOp(env, disk, op, e);
    }
  }

  lemma SafeAfter(env: Env, original: Bytes, rendered: set<Bytes>, disk: Disk, op: Op)
    requires AllSafe(original, rendered, disk)
    requires forall f <- disk.possible ::
               DirSafe(original, rendered, disk, Apply(op, f)) && DirApart(disk, Apply(op, f))
    ensures AllSafe(original, rendered, DirOp(env, disk, op))
  {
    hide DirSafe, DirApart, Apply;
    var after := DirOp(env, disk, op);
    forall e <- after.possible ensures DirSafe(original, rendered, after, e) && DirApart(after, e) {
      AfterDirOp(env, disk, op, e);
      SameContents(original, rendered, disk, after, e);
    }
  }

  lemma BackupAfter(env: Env, disk: Disk, op: Op)
    requires op.Unlink? ==> op.name != Backup
    requires op.Rename? ==> op.from != Backup
    ensures BackupEverywhere(env, disk) ==> BackupEverywhere(env, DirOp(env, disk, op))
  {
  }

  lemma LinkedDir(original: Bytes, rendered: set<Bytes>, disk: Disk, tmp: Name, i: Inode, f: Dir)
    requires DirSafe(original, rendered, disk, f) && DirApart(disk, f) && IsTmp(tmp)
    requires i in disk.bytes && forall n <- f :: f[n] != i
    ensures DirSafe(original, rendered, disk, f[tmp := i]) && DirApart(disk, f[tmp := i])
  {
  }

  lemma LinkKeepsSafe(env: Env, original: Bytes, rendered: set<Bytes>, disk: Disk, tmp: Name, i: Inode)
    requires AllSafe(original, rendered, disk) && IsTmp(tmp)
    requires i in disk.bytes && forall d <- disk.possible, n <- d :: d[n] != i
    ensures AllSafe(original, rendered, DirOp(env, disk, Link(tmp, i)))
  {
    hide DirSafe, DirApart, DirOp;
    forall f <- disk.possible
      ensures DirSafe(original, rendered, disk, Apply(Link(tmp, i), f)) && DirApart(disk, Apply(Link(tmp, i), f))
    {
      LinkedDir(original, rendered, disk, tmp, i, f);
    }
    SafeAfter(env, original, rendered, disk, Link(tmp, i));
  }

  lemma LinkedClear(live: Dir, f: Dir, tmp: Name, i: Inode)
    requires Clear(live, f) && IsTmp(tmp)
    requires (forall n <- live :: live[n] != i) && forall n <- f :: f[n] != i
    ensures Clear(live[tmp := i], f) && Clear(live[tmp := i], f[tmp := i])
  {
  }

  lemma LinkKeepsApart(env: Env, disk: Disk, tmp: Name, i: Inode)
    requires disk.live in disk.possible && TmpApart(disk) && IsTmp(tmp)
    requires forall d <- disk.possible, n <- d :: d[n] != i
    ensures TmpApart(DirOp(env, disk, Link(tmp, i)))
    ensures BackupEverywhere(env, disk) ==> BackupEverywhere(env, DirOp(env, disk, Link(tmp, i)))
  {
    hide Clear, BackupEverywhere, DirOp;
    forall f <- disk.possible
      ensures Clear(Apply(Link(tmp, i), disk.live), f) && Clear(Apply(Link(tmp, i), disk.live), Apply(Link(tmp, i), f))
    {
      LinkedClear(disk.live, f, tmp, i);
    }
    ClearAfter(env, disk, Link(tmp, i));
    BackupAfter(env, disk, Link(tmp, i));
  }

  lemma OpenKeeps(env: Env, original: Bytes, s: State, i: Inode, s': State)
    requires Inv(env, original, s) && OpenTmp(env, s, i, s')
    ensures Inv(env, original, s')
  {
    hide DirSafe, DirApart, DirOp;
    var tmp := Tmp(s.pc.dest);
    assert Untouched(s.disk, i) by {
      if tmp !in s.disk.live {
        FreshIsUntouched(s.disk, i);
      }
    }
    WritingKeepsSafe(original, s.rendered, s.disk, i, []);
    if tmp !in s.disk.live {
      FreshIsUntouched(s.disk, i);
      LinkKeepsSafe(env, original, s.rendered, WithBytes(s.disk, i, []), tmp, i);
      LinkKeepsApart(env, WithBytes(s.disk, i, []), tmp, i);
      LinkView(env, WithBytes(s.disk, i, []), tmp, i);
    }
  }

  lemma LinkView(env: Env, disk: Disk, tmp: Name, i: Inode)
    ensures var after := DirOp(env, disk, Link(tmp, i));
            && after.live == disk.live[tmp := i] && after.bytes == disk.bytes && after.synced == disk.synced
  {
  }

  lemma FreshIsUntouched(disk: Disk, i: Inode)
    requires (forall d <- disk.possible :: DirApart(disk, d)) && i !in disk.bytes
    ensures forall d <- disk.possible, n <- d :: d[n] != i
    ensures Untouched(disk, i)
  {
  }

  lemma WriteKeeps(env: Env, original: Bytes, s: State, m: nat, s': State)
    requires Inv(env, original, s) && WriteSome(s, m, s')
    ensures Inv(env, original, s')
  {
    hide DirSafe, DirApart;
    var i := s.disk.live[Tmp(s.pc.dest)];
    assert Untouched(s.disk, i);
    WritingKeepsSafe(original, s.rendered, s.disk, i, s.pc.data[..m]);
  }

  lemma SyncFileKeeps(env: Env, original: Bytes, s: State, s': State)
    requires Inv(env, original, s) && SyncFile(s, s')
    ensures Inv(env, original, s')
  {
    assert s.pc.data[..|s.pc.data|] == s.pc.data;
  }

  lemma RenamedDirSafe(original: Bytes, rendered: set<Bytes>, disk: Disk, dest: Name, data: Bytes, f: Dir)
    requires dest == Target || dest == Backup
    requires Tmp(dest) in disk.live && HoldsSafely(disk, disk.live[Tmp(dest)], data)
    requires data == original || (dest == Target && data in rendered && Backup in f)
    requires DirSafe(original, rendered, disk, f)
    ensures DirSafe(original, rendered, disk, Apply(Rename(Tmp(dest), dest, disk.live[Tmp(dest)]), f))
  {
  }

  /** The renamed file's inode stands under no other temporary name. */
  lemma RenamedDirApart(disk: Disk, dest: Name, f: Dir)
    requires (dest == Target || dest == Backup) && Tmp(dest) in disk.live && DirApart(disk, f)
    requires disk.live[Tmp(dest)] in disk.bytes
    requires forall n <- f :: IsTmp(n) && n != Tmp(dest) ==> f[n] != disk.live[Tmp(dest)]
    ensures DirApart(disk, Apply(Rename(Tmp(dest), dest, disk.live[Tmp(dest)]), f))
  {
  }

  lemma RenameKeepsSafe(env: Env, original: Bytes, rendered: set<Bytes>, disk: Disk, dest: Name, data: Bytes)
    requires AllSafe(original, rendered, disk) && (dest == Target || dest == Backup) && TmpApart(disk)
    requires Tmp(dest) in disk.live && HoldsSafely(disk, disk.live[Tmp(dest)], data)
    requires data == original || (dest == Target && data in rendered && BackupEverywhere(env, disk))
    ensures AllSafe(original, rendered, DirOp(env, disk, Rename(Tmp(dest), dest, disk.live[Tmp(dest)])))
  {
    hide DirSafe, DirApart, Apply;
    var op := Rename(Tmp(dest), dest, disk.live[Tmp(dest)]);
    var after := DirOp(env, disk, op);
    forall e <- after.possible ensures DirSafe(original, rendered, after, e) && DirApart(after, e) {
      AfterDirOp(env, disk, op, e);
      if e !in disk.possible {
        var f :| f in disk.possible && e == Apply(op, f) && (env.ordered ==> f == disk.live);
        RenamedDirSafe(original, rendered, disk, dest, data, f);
        RenamedDirApart(disk, dest, f);
      }
      SameContents(original, rendered, disk, after, e);
    }
  }

  lemma SameContents(original: Bytes, rendered: set<Bytes>, disk: Disk, after: Disk, e: Dir)
    requires disk.bytes == after.bytes && disk.synced == after.synced
    ensures DirSafe(original, rendered, disk, e) == DirSafe(original, rendered, after, e)
    ensures DirApart(disk, e) == DirApart(after, e)
  {
  }

  lemma RenameKeeps(env: Env, original: Bytes, s: State, s': State)
    requires Inv(env, original, s) && RenameTmp(env, s, s')
    ensures Inv(env, original, s')
  {
    hide DirSafe, DirApart;
    RenameKeepsSafe(env, original, s.rendered, s.disk, s.pc.dest, s.pc.data);
    RenameKeepsApart(env, s.disk, s.pc.dest);
  }

  lemma RenamedClear(live: Dir, f: Dir, tmp: Name, dest: Name)
    requires tmp in live && IsTmp(tmp) && !IsTmp(dest) && Clear(live, live) && Clear(live, f)
    ensures var op := Rename(tmp, dest, live[tmp]); Clear(Apply(op, live), f) && Clear(Apply(op, live), Apply(op, f))
  {
  }

  lemma RenameKeepsApart(env: Env, disk: Disk, dest: Name)
    requires disk.live in disk.possible && TmpApart(disk) && (dest == Target || dest == Backup)
    requires Tmp(dest) in disk.live
    ensures var after := DirOp(env, disk, Rename(Tmp(dest), dest, disk.live[Tmp(dest)]));
            && TmpApart(after)
            && (BackupEverywhere(env, disk) ==> BackupEverywhere(env, after))
  {
    hide Clear, BackupEverywhere, DirOp, Apply;
    var op := Rename(Tmp(dest), dest, disk.live[Tmp(dest)]);
    forall f <- disk.possible ensures Clear(Apply(op, disk.live), f) && Clear(Apply(op, disk.live), Apply(op, f)) {
      RenamedClear(disk.live, f, Tmp(dest), dest);
    }
    ClearAfter(env, disk, op);
    BackupAfter(env, disk, op);
  }

  lemma SyncDirKeeps(env: Env, original: Bytes, s: State, s': State)
    requires Inv(env, original, s) && Careful(env) && SyncDir(env, s, s')
    ensures Inv(env, original, s')
  {
    hide DirSafe, DirApart;
    forall d <- s.disk.possible
      ensures DirSafe(original, s.rendered, s'.disk, d) && DirApart(s'.disk, d)
    {
      SameContents(original, s.rendered, s.disk, s'.disk, d);
    }
  }

  lemma FailKeeps(env: Env, original: Bytes, s: State, s': State)
    requires Inv(env, original, s) && Fail(s, s')
    ensures Inv(env, original, s')
  {
    hide DirSafe, DirApart;
  }

  lemma UnlinkedDir(original: Bytes, rendered: set<Bytes>, disk: Disk, tmp: Name, live: Dir, f: Dir)
    requires DirSafe(original, rendered, disk, f) && DirApart(disk, f) && IsTmp(tmp) && Clear(live, f)
    ensures DirSafe(original, rendered, disk, f - {tmp}) && DirApart(disk, f - {tmp})
    ensures Clear(live - {tmp}, f) && Clear(live - {tmp}, f - {tmp})
  {
  }

  lemma UnlinkKeeps(env: Env, original: Bytes, rendered: set<Bytes>, disk: Disk, tmp: Name)
    requires AllSafe(original, rendered, disk) && IsTmp(tmp) && TmpApart(disk)
    ensures var after := DirOp(env, disk, Unlink(tmp));
            && AllSafe(original, rendered, after) && TmpApart(after)
            && (BackupEverywhere(env, disk) ==> BackupEverywhere(env, after))
  {
    hide DirSafe, DirApart, Clear, BackupEverywhere, DirOp;
    var op := Unlink(tmp);
    forall f <- disk.possible
      ensures DirSafe(original, rendered, disk, Apply(op, f)) && DirApart(disk, Apply(op, f))
      ensures Clear(Apply(op, disk.live), f) && Clear(Apply(op, disk.live), Apply(op, f))
    {
      UnlinkedDir(original, rendered, disk, tmp, disk.live, f);
    }
    SafeAfter(env, original, rendered, disk, op);
    ClearAfter(env, disk, op);
    BackupAfter(env, disk, op);
  }

  lemma RemoveKeeps(env: Env, original: Bytes, s: State, s': State)
    requires Inv(env, original, s) && RemoveTmp(env, s, s')
    ensures Inv(env, original, s')
  {
    hide DirSafe, DirApart;
    UnlinkKeeps(env, original, s.rendered, s.disk, Tmp(s.pc.dest));
  }

  lemma PowerCutKeeps(env: Env, original: Bytes, s: State, d: Dir, s': State)
    requires Inv(env, original, s) && PowerCut(s, d, s')
    ensures Inv(env, original, s')
  {
    assert DirSafe(original, s.rendered, s.disk, d) && DirApart(s.disk, d);
    assert DirApart(s'.disk, d);
  }

  lemma StepKeeps(env: Env, original: Bytes, s: State, s': State)
    requires Inv(env, original, s) && Careful(env) && Step(env, s, s')
    ensures Inv(env, original, s')
  {
    hide Inv, BeginRewrite, BeginRestore, OpenTmp, WriteSome, SyncFile, RenameTmp, SyncDir, Fail, RemoveTmp, PowerCut;
    if menu :| BeginRewrite(env, s, menu, s') {
      BeginKeeps(env, original, s, menu, s');
    } else if BeginRestore(s, s') {
      BeginKeeps(env, original, s, [], s');
    } else if i :| OpenTmp(env, s, i, s') {
      OpenKeeps(env, original, s, i, s');
    } else if m :| WriteSome(s, m, s') {
      WriteKeeps(env, original, s, m, s');
    } else if SyncFile(s, s') {
      SyncFileKeeps(env, original, s, s');
    } else if RenameTmp(env, s, s') {
      RenameKeeps(env, original, s, s');
    } else if SyncDir(env, s, s') {
      SyncDirKeeps(env, original, s, s');
    } else if Fail(s, s') {
      FailKeeps(env, original, s, s');
    } else if RemoveTmp(env, s, s') {
      RemoveKeeps(env, original, s, s');
    } else if d :| PowerCut(s, d, s') {
      PowerCutKeeps(env, original, s, d, s');
    }
  }

  /** In a careful environment every state of every run is safe, whatever is asked for and wherever it is cut. */
  lemma {:induction false} RunsAreSafe(env: Env, original: Bytes, run: seq<State>)
    requires IsRun(env, original, run) && Careful(env)
    ensures Inv(env, original, run[|run| - 1])
    decreases |run|
  {
    hide Inv, Step, Initial;
    if |run| == 1 {
      InitialInv(env, original, run[0]);
    } else {
      var front := run[..|run| - 1];
      RunsAreSafe(env, original, front);
      StepKeeps(env, original, run[|run| - 2], run[|run| - 1]);
    }
  }

  /** Once every possible directory has the backup, a further step leaves it in all of them. */
  lemma BackupStays(env: Env, s: State, s': State)
    requires s.disk.live in s.disk.possible && (forall d <- s.disk.possible :: Backup in d) && Step(env, s, s')
    ensures forall d <- s'.disk.possible :: Backup in d
  {
    if i :| OpenTmp(env, s, i, s') && Tmp(s.pc.dest) !in s.disk.live {
      DirOpKeepsBackup(env, s.disk.(bytes := s.disk.bytes[i := []], synced := s.disk.synced - {i}),
          Link(Tmp(s.pc.dest), i));
    } else if RenameTmp(env, s, s') {
      DirOpKeepsBackup(env, s.disk, Rename(Tmp(s.pc.dest), s.pc.dest, s.disk.live[Tmp(s.pc.dest)]));
    } else if RemoveTmp(env, s, s') {
      DirOpKeepsBackup(env, s.disk, Unlink(Tmp(s.pc.dest)));
    }
  }

  lemma DirOpKeepsBackup(env: Env, disk: Disk, op: Op)
    requires disk.live in disk.possible && forall d <- disk.possible :: Backup in d
    requires op.Unlink? ==> op.name != Backup
    requires op.Rename? ==> op.from != Backup
    ensures forall d <- DirOp(env, disk, op).possible :: Backup in d
  {
  }

  // ----- the other environments

  const ORIGINAL: Bytes := [1]
  const MENU: Bytes := [2]

  function Start(): State {
    var d: Dir := map[Target := 0];
    State(Disk(d, {d}, map[0 := ORIGINAL], {0}), Idle, {})
  }

  function Last(run: seq<State>): State
    requires run != []
  {
    run[|run| - 1]
  }

  lemma Extend(env: Env, run: seq<State>, s': State)
    requires IsRun(env, ORIGINAL, run) && Step(env, Last(run), s')
    ensures IsRun(env, ORIGINAL, run + [s']) && Last(run + [s']) == s'
  {
    hide Step, Initial;
    var longer := run + [s'];
    forall i | 0 < i < |longer| ensures Step(env, longer[i - 1], longer[i]) {
      assert i < |run| ==> longer[i - 1] == run[i - 1] && longer[i] == run[i];
    }
  }

  /** The state of writeAtomic when its temporary file is complete and synced. */
  function Written(env: Env, s: State, i: Inode): State
    requires s.pc.Atomic?
  {
    var linked := DirOp(env, s.disk.(bytes := s.disk.bytes[i := []], synced := s.disk.synced - {i}),
                        Link(Tmp(s.pc.dest), i));
    WithStage(s, Renaming).(disk := linked.(bytes := linked.bytes[i := s.pc.data], synced := linked.synced + {i}))
  }

  /** writeAtomic without a failure, up to the rename: open, write, sync. */
  lemma WriteTmp(env: Env, run: seq<State>, i: Inode) returns (longer: seq<State>)
    requires IsRun(env, ORIGINAL, run)
    requires Last(run).pc.Atomic? && Last(run).pc.stage == Opening && |Last(run).pc.data| == 1
    requires Tmp(Last(run).pc.dest) !in Last(run).disk.live && i !in Last(run).disk.bytes
    ensures IsRun(env, ORIGINAL, longer) && Last(longer) == Written(env, Last(run), i)
  {
    hide IsRun, Last;
    var s := Last(run);
    var tmp, data := Tmp(s.pc.dest), s.pc.data;
    var disk1 := DirOp(env, s.disk.(bytes := s.disk.bytes[i := []], synced := s.disk.synced - {i}), Link(tmp, i));
    var s1 := WithStage(s, Writing(0)).(disk := disk1);
    assert OpenTmp(env, s, i, s1);
    Extend(env, run, s1);
    assert data[..1] == data;
    var s2 := WithStage(s1, Writing(1)).(disk := disk1.(bytes := disk1.bytes[i := data], synced := disk1.synced - {i}));
    assert WriteSome(s1, 1, s2);
    Extend(env, run + [s1], s2);
    var s3 := Written(env, s, i);
    assert SyncFile(s2, s3);
    Extend(env, run + [s1] + [s2], s3);
    longer := run + [s1] + [s2] + [s3];
  }

  function RenamedFrom(env: Env, s: State, i: Inode): State
    requires s.pc.Atomic?
  {
    WithStage(s, SyncingDir).(disk := DirOp(env, s.disk, Rename(Tmp(s.pc.dest), s.pc.dest, i)))
  }

  /** And the rename. */
  lemma WriteFile(env: Env, run: seq<State>, i: Inode) returns (longer: seq<State>)
    requires IsRun(env, ORIGINAL, run)
    requires Last(run).pc.Atomic? && Last(run).pc.stage == Opening && |Last(run).pc.data| == 1
    requires Tmp(Last(run).pc.dest) !in Last(run).disk.live && i !in Last(run).disk.bytes
    ensures IsRun(env, ORIGINAL, longer) && Last(longer) == RenamedFrom(env, Written(env, Last(run), i), i)
  {
    hide IsRun, Last, DirOp;
    longer := WriteTmp(env, run, i);
    var t := Last(longer);
    LinkView(env, WithBytes(Last(run).disk, i, []), Tmp(t.pc.dest), i);
    assert RenameTmp(env, t, RenamedFrom(env, t, i));
    Extend(env, longer, RenamedFrom(env, t, i));
    longer := longer + [RenamedFrom(env, t, i)];
  }

  lemma WrittenView(env: Env, s: State, i: Inode)
    requires s.pc.Atomic? && Tmp(s.pc.dest) !in s.disk.live
    ensures var t := RenamedFrom(env, Written(env, s, i), i);
            && t.pc == s.pc.(stage := SyncingDir) && t.rendered == s.rendered
            && t.disk.bytes == s.disk.bytes[i := s.pc.data]
            && t.disk.live == (s.disk.live - {Tmp(s.pc.dest)})[s.pc.dest := i]
  {
    var tmp := Tmp(s.pc.dest);
    assert s.disk.live[tmp := i] - {tmp} == s.disk.live - {tmp};
  }

  lemma WrittenMayBe(env: Env, s: State, i: Inode, d: Dir)
    requires s.pc.Atomic? && d in s.disk.possible
    ensures var t := RenamedFrom(env, Written(env, s, i), i);
            && d in t.disk.possible
            && (!env.ordered ==> Apply(Rename(Tmp(s.pc.dest), s.pc.dest, i), d) in t.disk.possible)
  {
    hide Apply;
  }

  lemma StartIsInitial(env: Env)
    ensures IsRun(env, ORIGINAL, [Start()])
  {
  }

  /** A rewrite that could not read grub.cfg leaves the original in no place at all. */
  lemma UnreadableIsUnsafe(env: Env) returns (run: seq<State>)
    requires !env.readable
    ensures IsRun(env, ORIGINAL, run) && !Safe(ORIGINAL, Last(run))
  {
    hide IsRun, DirOp;
    StartIsInitial(env);
    var s := Start().(rendered := {MENU}, pc := Atomic(Target, MENU, Opening, None));
    assert BeginRewrite(env, Start(), MENU, s);
    Extend(env, [Start()], s);
    run := WriteFile(env, [Start()] + [s], 1);
    WrittenView(env, s, 1);
    var t := Last(run);
    assert !DirSafe(ORIGINAL, t.rendered, t.disk, t.disk.live);
  }

  /** The state after the backup has been written, its directory sync having failed. */
  function BackedUp(env: Env): State {
    var s := Start().(rendered := {MENU}, pc := Atomic(Backup, ORIGINAL, Opening, Some(MENU)));
    RenamedFrom(env, Written(env, s, 1), 1).(pc := Atomic(Target, MENU, Opening, None))
  }

  lemma BackedUpRun(env: Env) returns (run: seq<State>)
    requires !env.dirSyncs
    ensures IsRun(env, ORIGINAL, run) && Last(run) == BackedUp(env)
  {
    hide IsRun, DirOp;
    StartIsInitial(env);
    var s := Start().(rendered := {MENU}, pc := Atomic(Backup, ORIGINAL, Opening, Some(MENU)));
    assert BeginRewrite(env, Start(), MENU, s);
    Extend(env, [Start()], s);
    run := WriteFile(env, [Start()] + [s], 1);
    assert SyncDir(env, Last(run), BackedUp(env));
    Extend(env, run, BackedUp(env));
    run := run + [BackedUp(env)];
  }

  lemma BackedUpView(env: Env)
    ensures var t := BackedUp(env);
            && t.pc == Atomic(Target, MENU, Opening, None) && t.rendered == {MENU}
            && t.disk.live == map[Target := 0, Backup := 1] && t.disk.bytes == map[0 := ORIGINAL, 1 := ORIGINAL]
            && map[Target := 0] in t.disk.possible
  {
    hide DirOp, Apply;
    var s := Start().(rendered := {MENU}, pc := Atomic(Backup, ORIGINAL, Opening, Some(MENU)));
    WrittenView(env, s, 1);
    WrittenMayBe(env, s, 1, map[Target := 0]);
  }

  /** Without order, and with the directory sync failing, grub.cfg's rename may reach the disk before the backup's. */
  lemma UnorderedIsUnsafe(env: Env) returns (run: seq<State>)
    requires !env.ordered && !env.dirSyncs
    ensures IsRun(env, ORIGINAL, run) && !Safe(ORIGINAL, Last(run))
  {
    hide IsRun, DirOp, BackedUp;
    var backedUp := BackedUpRun(env);
    BackedUpView(env);
    var t := BackedUp(env);
    run := WriteFile(env, backedUp, 2);
    WrittenView(env, t, 2);
    WrittenMayBe(env, t, 2, map[Target := 0]);
    var u := Last(run);
    var lost := Apply(Rename(TargetNew, Target, 2), map[Target := 0]);
    assert lost in u.disk.possible && lost == map[Target := 2];
    assert !DirSafe(ORIGINAL, u.rendered, u.disk, lost);
  }

  /** The promise holds in every run exactly in the careful environments. */
  lemma SafeExactlyWhenCareful(env: Env)
    ensures Careful(env) <==>
              forall original: Bytes, run: seq<State> | IsRun(env, original, run) :: Safe(original, Last(run))
  {
    hide IsRun, Safe;
    if Careful(env) {
      forall original: Bytes, run: seq<State> | IsRun(env, original, run) ensures Safe(original, Last(run)) {
        RunsAreSafe(env, original, run);
      }
    } else {
      var run;
      if env.readable {
        run := UnorderedIsUnsafe(env);
      } else {
        run := UnreadableIsUnsafe(env);
      }
    }
  }
}
