/** What a rewrite or a restore of grub.cfg leaves behind when it runs to its end:
    cmd/vibeldr-boot/grub_rewrite_linux.go. */
module RestoreEnds {
  import opened GoStrings
  import opened GrubRewrite

  /** A step of writeAtomic that works: no failure, no power cut, no other call. */
  ghost predicate Works(env: Env, s: State, s': State) {
    || (exists i :: OpenTmp(env, s, i, s'))
    || (exists m :: WriteSome(s, m, s'))
    || SyncFile(s, s')
    || RenameTmp(env, s, s')
    || SyncDir(env, s, s')
  }

  /** From state a on the run is one call that nothing disturbs. */
  ghost predicate Undisturbed(env: Env, run: seq<State>, a: nat) {
    forall i | a < i < |run| :: Works(env, run[i - 1], run[i])
  }

  /** The file holds the text, synced, in the directory as programs see it. */
  predicate Holds(s: State, n: Name, text: Bytes) {
    n in s.disk.live && HoldsSafely(s.disk, s.disk.live[n], text)
  }

  /** The file holds the text whatever a power cut leaves. */
  predicate HoldsForGood(s: State, n: Name, text: Bytes) {
    forall d <- s.disk.possible :: n in d && HoldsSafely(s.disk, d[n], text)
  }

  /** Inside writeAtomic(dest, data): what has been written so far. */
  predicate InCall(s: State, dest: Name, data: Bytes) {
    && s.pc.Atomic? && s.pc.dest == dest && s.pc.data == data && s.pc.stage != Removing
    && (s.pc.stage.Writing? ==>
          && s.pc.stage.done <= |data| && Tmp(dest) in s.disk.live
          && s.disk.live[Tmp(dest)] in s.disk.bytes
          && s.disk.bytes[s.disk.live[Tmp(dest)]] == data[..s.pc.stage.done])
    && (s.pc.stage == Renaming ==> Holds(s, Tmp(dest), data))
    && (s.pc.stage == SyncingDir ==> Holds(s, dest, data))
  }

  /** Where the program goes when the directory has been synced. */
  function Next(pc: Pc): Pc
    requires pc.Atomic?
  {
    if pc.andThen.Some? then Atomic(Target, pc.andThen.value, Opening, None) else Idle
  }

  lemma CallGoesOn(env: Env, s: State, s': State, dest: Name, data: Bytes)
    requires InCall(s, dest, data) && Works(env, s, s') && s.pc.stage != SyncingDir
    ensures InCall(s', dest, data) && s'.pc.andThen == s.pc.andThen
    ensures Backup in s.disk.live ==> Backup in s'.disk.live
  {
    if s.pc.stage.Writing? && s.pc.stage.done == |data| {
      assert data[..|data|] == data;
    }
  }

  lemma CallEnds(env: Env, s: State, s': State, dest: Name, data: Bytes)
    requires InCall(s, dest, data) && Works(env, s, s') && s.pc.stage == SyncingDir
    ensures s'.pc == Next(s.pc) && s'.disk.live == s.disk.live && Holds(s', dest, data)
    ensures env.dirSyncs ==> HoldsForGood(s', dest, data)
  {
  }

  // ----- a restore

  ghost predicate RestoreInv(env: Env, s: State, data: Bytes) {
    || (InCall(s, Target, data) && s.pc.andThen.None?)
    || (s.pc == Idle && Holds(s, Target, data) && (env.dirSyncs ==> HoldsForGood(s, Target, data)))
  }

  lemma {:induction false} RestoreGoesOn(env: Env, run: seq<State>, a: nat, data: Bytes)
    requires a < |run| && Undisturbed(env, run, a) && run[a].pc == Atomic(Target, data, Opening, None)
    ensures RestoreInv(env, Last(run), data)
    decreases |run|
  {
    hide Works;
    if a < |run| - 1 {
      var front := run[..|run| - 1];
      RestoreGoesOn(env, front, a, data);
      RestoreStep(env, Last(front), Last(run), data);
    }
  }

  lemma RestoreStep(env: Env, s: State, s': State, data: Bytes)
    requires RestoreInv(env, s, data) && Works(env, s, s')
    ensures RestoreInv(env, s', data)
  {
    hide Works, HoldsForGood, Holds;
    assert s.pc.Atomic? by { WorksInCall(env, s, s'); }
    if s.pc.stage == SyncingDir {
      CallEnds(env, s, s', Target, data);
    } else {
      CallGoesOn(env, s, s', Target, data);
    }
  }

  lemma WorksInCall(env: Env, s: State, s': State)
    requires Works(env, s, s')
    ensures s.pc.Atomic?
  {
  }

  /** In every environment a restore that runs to its end has put the backup's contents into grub.cfg. */
  lemma RestoreWritesBackup(env: Env, original: Bytes, run: seq<State>, a: nat)
    requires IsRun(env, original, run) && a + 1 < |run| && BeginRestore(run[a], run[a + 1])
    requires Undisturbed(env, run, a + 1) && Last(run).pc == Idle
    ensures var d := run[a].disk;
            && Holds(Last(run), Target, d.bytes[d.live[Backup]])
            && (env.dirSyncs ==> HoldsForGood(Last(run), Target, d.bytes[d.live[Backup]]))
  {
    hide IsRun, Works;
    RestoreGoesOn(env, run, a + 1, run[a].disk.bytes[run[a].disk.live[Backup]]);
  }

  lemma BackupIsOriginal(env: Env, original: Bytes, run: seq<State>, i: nat)
    requires IsRun(env, original, run) && Careful(env) && i < |run| && Backup in run[i].disk.live
    ensures Holds(run[i], Backup, original)
  {
    hide Step, Initial;
    var front := run[..i + 1];
    assert IsRun(env, original, front);
    RunsAreSafe(env, original, front);
    assert DirSafe(original, run[i].rendered, run[i].disk, run[i].disk.live);
  }

  /** In a careful environment a restore that runs to its end brings the original back; where a directory sync
      succeeds, for good. */
  lemma RestoreBringsBack(env: Env, original: Bytes, run: seq<State>, a: nat)
    requires IsRun(env, original, run) && Careful(env) && a + 1 < |run| && BeginRestore(run[a], run[a + 1])
    requires Undisturbed(env, run, a + 1) && Last(run).pc == Idle
    ensures Holds(Last(run), Target, original)
    ensures env.dirSyncs ==> HoldsForGood(Last(run), Target, original)
  {
    hide IsRun, Works, HoldsForGood;
    RestoreWritesBackup(env, original, run, a);
    BackupIsOriginal(env, original, run, a);
  }

  // ----- a rewrite

  ghost predicate RewriteInv(env: Env, s: State, menu: Bytes) {
    || (s.pc.Atomic? && s.pc.andThen == Some(menu) && InCall(s, Backup, s.pc.data))
    || (InCall(s, Target, menu) && s.pc.andThen.None? && Backup in s.disk.live)
    || (&& s.pc == Idle && Holds(s, Target, menu) && Backup in s.disk.live
        && (env.dirSyncs ==> HoldsForGood(s, Target, menu)))
  }

  lemma {:induction false} RewriteGoesOn(env: Env, run: seq<State>, a: nat, menu: Bytes)
    requires a < |run| && Undisturbed(env, run, a) && RewriteInv(env, run[a], menu)
    ensures RewriteInv(env, Last(run), menu)
    decreases |run|
  {
    hide Works, RewriteInv;
    if a < |run| - 1 {
      var front := run[..|run| - 1];
      RewriteGoesOn(env, front, a, menu);
      RewriteStep(env, Last(front), Last(run), menu);
    }
  }

  lemma RewriteStep(env: Env, s: State, s': State, menu: Bytes)
    requires RewriteInv(env, s, menu) && Works(env, s, s')
    ensures RewriteInv(env, s', menu)
  {
    hide Works, HoldsForGood;
    assert s.pc.Atomic? by { WorksInCall(env, s, s'); }
    if s.pc.stage == SyncingDir {
      CallEnds(env, s, s', s.pc.dest, s.pc.data);
    } else {
      CallGoesOn(env, s, s', s.pc.dest, s.pc.data);
    }
  }

  lemma RewriteBegins(env: Env, original: Bytes, run: seq<State>, a: nat, menu: Bytes)
    requires IsRun(env, original, run) && Careful(env) && a + 1 < |run|
    requires BeginRewrite(env, run[a], menu, run[a + 1])
    ensures RewriteInv(env, run[a + 1], menu)
  {
    hide Step, Initial;
    var front := run[..a + 1];
    assert IsRun(env, original, front);
    RunsAreSafe(env, original, front);
    assert DirSafe(original, run[a].rendered, run[a].disk, run[a].disk.live);
  }

  /** In a careful environment a rewrite that runs to its end leaves the menu in grub.cfg and the original in the
      backup, whether the backup was there or is made first; where a directory sync succeeds, grub.cfg for good. */
  lemma RewriteLeavesMenu(env: Env, original: Bytes, run: seq<State>, a: nat, menu: Bytes)
    requires IsRun(env, original, run) && Careful(env) && a + 1 < |run|
    requires BeginRewrite(env, run[a], menu, run[a + 1])
    requires Undisturbed(env, run, a + 1) && Last(run).pc == Idle
    ensures Holds(Last(run), Target, menu) && Holds(Last(run), Backup, original)
    ensures env.dirSyncs ==> HoldsForGood(Last(run), Target, menu)
  {
    hide IsRun, Works, HoldsForGood;
    RewriteBegins(env, original, run, a, menu);
    RewriteGoesOn(env, run, a + 1, menu);
    BackupIsOriginal(env, original, run, |run| - 1);
  }

  // ----- and every call can run to its end

  lemma FreeInode(used: set<Inode>) returns (i: Inode)
    ensures i !in used
  {
    i := Above(used);
    assert i in used ==> i < i;
  }

  lemma {:induction false} Above(used: set<Inode>) returns (i: Inode)
    ensures forall j <- used :: j < i
    decreases |used|
  {
    if used == {} {
      i := 0;
    } else {
      var j :| j in used;
      var k := Above(used - {j});
      i := if j < k then k else j + 1;
      forall n <- used ensures n < i {
        assert n == j || n in used - {j};
      }
    }
  }

  lemma OpenCan(env: Env, s: State) returns (s': State)
    requires s.pc.Atomic? && s.pc.stage == Opening
    ensures Works(env, s, s') && InCall(s', s.pc.dest, s.pc.data) && s'.pc == s.pc.(stage := Writing(0))
  {
    var i;
    if Tmp(s.pc.dest) in s.disk.live {
      i := s.disk.live[Tmp(s.pc.dest)];
      s' := WithStage(s, Writing(0)).(disk := WithBytes(s.disk, i, []));
    } else {
      i := FreeInode(s.disk.bytes.Keys);
      s' := WithStage(s, Writing(0)).(disk := DirOp(env, WithBytes(s.disk, i, []), Link(Tmp(s.pc.dest), i)));
    }
    assert OpenTmp(env, s, i, s');
  }

  lemma WriteCan(env: Env, s: State) returns (s': State)
    requires s.pc.Atomic? && s.pc.stage == Writing(0) && InCall(s, s.pc.dest, s.pc.data) && s.pc.data != []
    ensures Works(env, s, s') && InCall(s', s.pc.dest, s.pc.data) && s'.pc == s.pc.(stage := Writing(|s.pc.data|))
  {
    var m, i := |s.pc.data|, s.disk.live[Tmp(s.pc.dest)];
    s' := WithStage(s, Writing(m)).(disk := WithBytes(s.disk, i, s.pc.data[..m]));
    assert WriteSome(s, m, s');
    CallGoesOn(env, s, s', s.pc.dest, s.pc.data);
  }

  lemma SyncCan(env: Env, s: State) returns (s': State)
    requires s.pc.Atomic? && InCall(s, s.pc.dest, s.pc.data) && s.pc.stage == Writing(|s.pc.data|)
    ensures Works(env, s, s') && InCall(s', s.pc.dest, s.pc.data) && s'.pc == s.pc.(stage := Renaming)
  {
    s' := WithStage(s, Renaming).(disk := s.disk.(synced := s.disk.synced + {s.disk.live[Tmp(s.pc.dest)]}));
    assert SyncFile(s, s');
    CallGoesOn(env, s, s', s.pc.dest, s.pc.data);
  }

  lemma RenameCan(env: Env, s: State) returns (s': State, s'': State)
    requires s.pc.Atomic? && InCall(s, s.pc.dest, s.pc.data) && s.pc.stage == Renaming
    ensures Works(env, s, s') && Works(env, s', s'') && s''.pc == Next(s.pc)
  {
    hide DirOp;
    var tmp := Tmp(s.pc.dest);
    s' := WithStage(s, SyncingDir).(disk := DirOp(env, s.disk, Rename(tmp, s.pc.dest, s.disk.live[tmp])));
    assert RenameTmp(env, s, s');
    s'' := s'.(pc := Next(s.pc), disk := s'.disk.(possible := {s'.disk.live}));
    assert SyncDir(env, s', s'');
  }

  /** From where a call begins there is a way through it that nothing disturbs. */
  lemma CallCanFinish(env: Env, s: State) returns (run: seq<State>)
    requires s.pc.Atomic? && s.pc.stage == Opening
    ensures run != [] && run[0] == s && Undisturbed(env, run, 0) && Last(run).pc == Next(s.pc)
  {
    hide Works, InCall;
    var begun := OpenCan(env, s);
    run := [s, begun];
    var full := begun;
    if s.pc.data != [] {
      full := WriteCan(env, begun);
      run := [s, begun, full];
    }
    var synced := SyncCan(env, full);
    var renamed, done := RenameCan(env, synced);
    run := run + [synced, renamed, done];
  }
}
