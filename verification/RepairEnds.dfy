/** What a boot that runs to its end does with the repair queue. */
module RepairEnds {
  import opened GoStrings
  import opened RepairQueue

  lemma RepairsByName()
    ensures forall n :: IsTask(n) <==> n == Ascii("unblock-ips") || n == Ascii("disable-triggered-") + Ascii("tasks")
  {
    assert Ascii("disable-triggered-") + Ascii("tasks") == DISABLE_TRIGGERED;
  }

  // ----- a boot without a power cut and without an error

  /** The repairs that a queue file asks for. */
  function Asked(v: Version): seq<Bytes> { ParseTasks(v.body).known }

  /** The first n of them, as made for that save. */
  function Made(v: Version, n: nat): seq<Applied>
    requires n <= |Asked(v)|
  {
    seq(n, k requires 0 <= k < n => Applied(v.id, Asked(v)[k]))
  }

  ghost predicate Undisturbed(w: World, w': World) {
    WriteBack(w, w') || Remove(w, w') || Sync(w, w') || ApplyOne(w, w')
  }

  ghost predicate IsBoot(run: seq<World>) {
    |run| > 1 && Take(run[0], run[1]) && forall i | 1 < i < |run| :: Undisturbed(run[i - 1], run[i])
  }

  predicate Finished(w: World) { w.pc.Applying? && w.pc.done >= |Asked(w.pc.v)| }

  /** How far a boot that took v has come. */
  predicate Underway(was: seq<Applied>, v: Version, w: World) {
    match w.pc
    case Idle => false
    case Taken(u) => u == v && w.applied == was
    case Removed(u) => u == v && w.applied == was && w.store.file == None
    case Applying(u, n) => u == v && n <= |Asked(v)| && w.applied == was + Made(v, n) && w.store.file == None
  }

  lemma UndisturbedKeeps(was: seq<Applied>, v: Version, w: World, w': World)
    requires Underway(was, v, w) && Undisturbed(w, w')
    ensures Underway(was, v, w')
  {
    hide ParseTasks;
    if Sync(w, w') {
      assert was + Made(v, 0) == was;
    } else if ApplyOne(w, w') {
      var n := w.pc.done;
      assert Made(v, n + 1) == Made(v, n) + [Applied(v.id, Asked(v)[n])];
      assert was + Made(v, n + 1) == was + Made(v, n) + [Applied(v.id, Asked(v)[n])];
    }
  }

  lemma {:induction false} BootIsUnderway(run: seq<World>)
    requires IsBoot(run)
    ensures Underway(run[0].applied, run[0].store.file.value, run[|run| - 1])
    decreases |run|
  {
    hide Undisturbed, ParseTasks;
    if |run| > 2 {
      var front := run[..|run| - 1];
      assert forall i | 0 <= i < |front| :: front[i] == run[i];
      BootIsUnderway(front);
      UndisturbedKeeps(run[0].applied, run[0].store.file.value, run[|run| - 2], run[|run| - 1]);
    }
  }

  /** A boot that ends undisturbed has made every repair the file asks for, in order and nothing else, and the file is
      gone. */
  lemma BootMakesAll(run: seq<World>)
    requires IsBoot(run) && Finished(run[|run| - 1])
    ensures var was, v, w := run[0].applied, run[0].store.file.value, run[|run| - 1];
            && w.store.file == None && |w.applied| == |was| + |Asked(v)| && w.applied[..|was|] == was
            && forall k | 0 <= k < |Asked(v)| :: w.applied[|was| + k] == Applied(v.id, Asked(v)[k])
  {
    hide Undisturbed, ParseTasks;
    BootIsUnderway(run);
  }

  /** When the save reached the file whole, these are the repairs that were chosen, in the order of the choice. */
  lemma BootMakesChosen(run: seq<World>, id: nat, tasks: seq<Bytes>)
    requires IsBoot(run) && Finished(run[|run| - 1]) && tasks != [] && AreTasks(tasks) && NoRepeats(tasks)
    requires run[0].store.file == Some(Version(id, SavedBody(tasks)))
    ensures var was, w := run[0].applied, run[|run| - 1];
            && w.store.file == None && |w.applied| == |was| + |tasks| && w.applied[..|was|] == was
            && forall k | 0 <= k < |tasks| :: w.applied[|was| + k] == Applied(id, tasks[k])
  {
    hide IsBoot, ParseTasks, SavedBody, IsTask;
    SavedReadsBack(tasks);
    BootMakesAll(run);
  }

  // ----- there is always such a boot

  lemma {:induction false} RepairsCanFinish(run: seq<World>) returns (whole: seq<World>)
    requires IsBoot(run)
    requires var w := run[|run| - 1]; w.pc.Applying? && w.pc.done <= |Asked(w.pc.v)|
    ensures IsBoot(whole) && whole[0] == run[0] && Finished(whole[|whole| - 1])
    decreases |Asked(run[|run| - 1].pc.v)| - run[|run| - 1].pc.done
  {
    hide ParseTasks;
    var w := run[|run| - 1];
    if w.pc.done == |Asked(w.pc.v)| {
      whole := run;
    } else {
      var made := Applied(w.pc.v.id, Asked(w.pc.v)[w.pc.done]);
      var next := w.(pc := Applying(w.pc.v, w.pc.done + 1), applied := w.applied + [made]);
      assert ApplyOne(w, next);
      OneMore(run, next);
      whole := RepairsCanFinish(run + [next]);
    }
  }

  lemma OneMore(run: seq<World>, next: World)
    requires IsBoot(run) && Undisturbed(run[|run| - 1], next)
    ensures IsBoot(run + [next])
  {
    hide Undisturbed;
    var longer := run + [next];
    forall i | 1 < i < |longer| ensures Undisturbed(longer[i - 1], longer[i]) {
      assert longer[i - 1] == run[i - 1];
      assert i < |run| ==> longer[i] == run[i];
    }
  }

  lemma BootCanFinish(w: World) returns (run: seq<World>)
    requires w.pc.Idle? && w.store.file.Some?
    ensures IsBoot(run) && run[0] == w && Finished(run[|run| - 1])
  {
    hide ParseTasks;
    var v := w.store.file.value;
    var taken := w.(pc := Taken(v));
    var removed := taken.(pc := Removed(v), store := Store(None, w.store.possible + {None}));
    var synced := removed.(pc := Applying(v, 0), store := Store(None, {None}));
    assert Take(w, taken) && Remove(taken, removed) && Sync(removed, synced);
    assert IsBoot([w, taken, removed, synced]);
    run := RepairsCanFinish([w, taken, removed, synced]);
  }
}
