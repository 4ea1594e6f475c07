/** Repairs queued by the loader and made on DSM's next boot: cmd/vibeldr-boot/dsmfix_linux.go,
    cmd/vibeldr-init/dsmtasks.go and dsmtasks_linux.go. */
module RepairQueue {
  import opened GoStrings

  const UNBLOCK_IPS: Bytes := Ascii("unblock-ips")
  const DISABLE_TRIGGERED: Bytes := Ascii("disable-triggered-tasks")
  const COMMENT: Bytes := Ascii("# queued in the ") + Ascii("vibeldr rescue ") + Ascii("menu; run and ")
                          + Ascii("removed on DSM's ") + Ascii("next boot")

  predicate IsTask(name: Bytes) { name == UNBLOCK_IPS || name == DISABLE_TRIGGERED }

  // ----- the queue file

  datatype Parsed = Parsed(known: seq<Bytes>, unknown: seq<Bytes>)

  function AddLine(p: Parsed, line: Bytes): Parsed {
    var name := TrimSpace(line);
    if name == [] || HasPrefix(name, [HASH]) || name in p.known || name in p.unknown then p
    else if IsTask(name) then p.(known := p.known + [name])
    else p.(unknown := p.unknown + [name])
  }

  function AddLines(p: Parsed, lines: seq<Bytes>): Parsed
    decreases |lines|
  {
    if lines == [] then p else AddLines(AddLine(p, lines[0]), lines[1..])
  }

  function ParseTasks(data: Bytes): Parsed { AddLines(Parsed([], []), Lines(data)) }

  method ParseDSMTasks(data: Bytes) returns (known: seq<Bytes>, unknown: seq<Bytes>)
    ensures Parsed(known, unknown) == ParseTasks(data)
  {
    hide IsTask, HasPrefix, TrimSpace, Lines;
    known, unknown := [], [];
    var seen: set<Bytes> := {};
    var lines := Lines(data);
    assert lines[0..] == lines;
    for i := 0 to |lines|
      invariant ParseTasks(data) == AddLines(Parsed(known, unknown), lines[i..])
      invariant forall n :: n in seen <==> n in known || n in unknown
    {
      assert lines[i..][1..] == lines[i + 1..];
      var name := TrimSpace(lines[i]);
      if name == [] || HasPrefix(name, [HASH]) || name in seen {
        continue;
      }
      seen := seen + {name};
      if IsTask(name) {
        known := known + [name];
      } else {
        unknown := unknown + [name];
      }
    }
  }

  /** What saveDSMFix writes for a list that is not empty. */
  function SavedBody(tasks: seq<Bytes>): Bytes { COMMENT + [NL] + Unlines(tasks) + [NL] }

  predicate NoRepeats(names: seq<Bytes>) { forall i, j | 0 <= i < j < |names| :: names[i] != names[j] }

  predicate AreTasks(names: seq<Bytes>) { forall i | 0 <= i < |names| :: IsTask(names[i]) }

  /** Known names come out once each, and only task names do. */
  lemma {:induction false} ParsedKnownOnce(p: Parsed, lines: seq<Bytes>)
    requires NoRepeats(p.known) && AreTasks(p.known)
    ensures NoRepeats(AddLines(p, lines).known) && AreTasks(AddLines(p, lines).known)
    decreases |lines|
  {
    hide IsTask, TrimSpace, HasPrefix;
    if lines != [] {
      var q := AddLine(p, lines[0]);
      assert AreTasks(q.known) && NoRepeats(q.known);
      ParsedKnownOnce(q, lines[1..]);
    }
  }

  /** The two names are visible ASCII and differ in their first byte. */
  lemma TaskIsVisible(name: Bytes)
    requires IsTask(name)
    ensures Visible(name) && name != []
    ensures name[0] == if name == UNBLOCK_IPS then 117 else 100
  {
    assert UNBLOCK_IPS[0] == 117 && DISABLE_TRIGGERED[0] == 100;
    assert Visible(UNBLOCK_IPS) && Visible(DISABLE_TRIGGERED);
  }

  lemma TaskNames(name: Bytes)
    requires IsTask(name)
    ensures TrimSpace(name) == name && name != [] && !HasPrefix(name, [HASH]) && NL !in name
  {
    hide TrimSpace, IsTask, NoSpace, SpaceAt, SpaceBefore;
    TaskIsVisible(name);
    VisibleNoSpace(name);
    assert name[..1] == [name[0]];
    assert IsSpace(NL);
  }

  lemma {:induction false} AddTasks(done: seq<Bytes>, tasks: seq<Bytes>)
    requires AreTasks(tasks) && NoRepeats(done + tasks)
    ensures AddLines(Parsed(done, []), tasks) == Parsed(done + tasks, [])
    decreases |tasks|
  {
    hide IsTask, TrimSpace, HasPrefix;
    if tasks == [] {
      assert done + tasks == done;
    } else {
      TaskNames(tasks[0]);
      assert tasks[0] !in done by {
        forall i | 0 <= i < |done| ensures done[i] != tasks[0] {
          assert (done + tasks)[i] == done[i] && (done + tasks)[|done|] == tasks[0];
        }
      }
      assert done + tasks == (done + [tasks[0]]) + tasks[1..];
      AddTasks(done + [tasks[0]], tasks[1..]);
    }
  }

  lemma {:induction false} AddLinesAppend(p: Parsed, a: seq<Bytes>, b: seq<Bytes>)
    ensures AddLines(p, a + b) == AddLines(AddLines(p, a), b)
    decreases |a|
  {
    hide AddLine;
    if a == [] {
      assert a + b == b;
    } else {
      assert (a + b)[1..] == a[1..] + b;
      AddLinesAppend(AddLine(p, a[0]), a[1..], b);
    }
  }

  lemma {:induction false} UnlinesAppend(a: seq<Bytes>, b: Bytes)
    requires a != []
    ensures Unlines(a + [b]) == Unlines(a) + [NL] + b
  {
    var all := a + [b];
    assert all[1..] == a[1..] + [b] && all[0] == a[0];
    if |a| == 1 {
      assert all[1..] == [b] && Unlines([b]) == b;
      assert Unlines(all) == all[0] + [NL] + Unlines(all[1..]);
    } else {
      UnlinesAppend(a[1..], b);
      assert Unlines(all) == a[0] + [NL] + Unlines(all[1..]);
    }
  }

  lemma SavedLines(tasks: seq<Bytes>)
    requires tasks != [] && AreTasks(tasks)
    ensures Lines(SavedBody(tasks)) == [COMMENT] + tasks + [[]]
  {
    hide IsTask, Lines;
    CommentIsOneLine();
    var lines := [COMMENT] + tasks + [[]];
    assert lines[1..] == tasks + [[]];
    UnlinesAppend(tasks, []);
    assert Unlines(lines) == COMMENT + [NL] + Unlines(tasks + [[]]);
    assert SavedBody(tasks) == Unlines(lines);
    forall i | 0 <= i < |lines| ensures NL !in lines[i] {
      if 0 < i <= |tasks| {
        TaskNames(tasks[i - 1]);
      }
    }
    LinesOfUnlines(lines);
  }

  lemma CommentIsOneLine()
    ensures |COMMENT| > 0 && COMMENT[0] == HASH && COMMENT[|COMMENT| - 1] == 116 && NL !in COMMENT
  {
    var a, b, c, d, e := Ascii("# queued in the "), Ascii("vibeldr rescue "), Ascii("menu; run and "),
                         Ascii("removed on DSM's "), Ascii("next boot");
    assert NL !in a && NL !in b && NL !in c && NL !in d && NL !in e;
    assert a[0] == HASH && e[8] == 116;
    assert COMMENT == a + b + c + d + e;
  }

  lemma CommentIsSkipped(p: Parsed)
    ensures AddLine(p, COMMENT) == p && AddLine(p, []) == p
  {
    hide TrimSpace, IsTask, SpaceAt, SpaceBefore;
    CommentIsOneLine();
    AsciiEnds(COMMENT);
    TrimmedIsSame(COMMENT);
    NothingBlank();
    TrimmedIsSame([]);
    assert COMMENT[..1] == [HASH];
  }

  /** A saved queue reads back as exactly the chosen tasks, in order. */
  lemma SavedReadsBack(tasks: seq<Bytes>)
    requires tasks != [] && AreTasks(tasks) && NoRepeats(tasks)
    ensures ParseTasks(SavedBody(tasks)) == Parsed(tasks, [])
  {
    hide IsTask, AddLine, SavedBody;
    var p := Parsed([], []);
    SavedLines(tasks);
    AddLinesAppend(p, [COMMENT] + tasks, [[]]);
    AddLinesAppend(p, [COMMENT], tasks);
    CommentIsSkipped(p);
    assert [] + tasks == tasks;
    AddTasks([], tasks);
    CommentIsSkipped(Parsed(tasks, []));
    var blank: seq<Bytes> := [[]];
    assert [COMMENT][1..] == [] && blank[1..] == [];
  }

  // ----- the protocol: one file, a loader that writes it and a DSM boot that takes it

  /** The file as one save left it; `id` tells saves apart. */
  datatype Version = Version(id: nat, body: Bytes)

  /** `file` is what programs see, `possible` what a power cut may leave. */
  datatype Store = Store(file: Option<Version>, possible: set<Option<Version>>)

  datatype Pc = Idle | Taken(v: Version) | Removed(v: Version) | Applying(v: Version, done: nat)

  datatype Applied = Applied(id: nat, task: Bytes)

  datatype World = World(store: Store, pc: Pc, nextId: nat, saved: map<nat, seq<Bytes>>, applied: seq<Applied>)

  /** Any beginning of the body may have reached the file: the write is not synced and may fail. */
  function Beginnings(id: nat, body: Bytes): set<Option<Version>> {
    set k: nat | k <= |body| :: Some(Version(id, body[..k]))
  }

  /** saveDSMFix in the loader: replace the queue by the chosen tasks, or remove it when there are none. */
  ghost predicate Save(w: World, tasks: seq<Bytes>, w': World) {
    && w.pc.Idle? && AreTasks(tasks) && NoRepeats(tasks)
    && (if tasks == [] then w' == w.(store := Store(None, w.store.possible + {None}))
        else
          var written := Beginnings(w.nextId, SavedBody(tasks));
          exists f :: f in written
            && w' == w.(store := Store(f, w.store.possible + written), nextId := w.nextId + 1,
                        saved := w.saved[w.nextId := tasks]))
  }

  /** The system may write the file back at any time. */
  ghost predicate WriteBack(w: World, w': World) {
    w' == w.(store := Store(w.store.file, {w.store.file}))
  }

  /** takeDSMTasks: read, then remove; an error in either ends it. */
  ghost predicate Take(w: World, w': World) {
    w.pc.Idle? && w.store.file.Some? && w' == w.(pc := Taken(w.store.file.value))
  }

  ghost predicate GiveUp(w: World, w': World) {
    (w.pc.Taken? || w.pc.Applying?) && w' == w.(pc := Idle)
  }

  ghost predicate Remove(w: World, w': World) {
    && w.pc.Taken?
    && w' == w.(pc := Removed(w.pc.v), store := Store(None, w.store.possible + {None}))
  }

  /** The sync after the removal, which the repairs wait for. */
  ghost predicate Sync(w: World, w': World) {
    && w.pc.Removed?
    && w' == w.(pc := Applying(w.pc.v, 0), store := Store(w.store.file, {w.store.file}))
  }

  /** One repair is begun, whether or not it then succeeds. */
  ghost predicate ApplyOne(w: World, w': World) {
    && w.pc.Applying?
    && var known := ParseTasks(w.pc.v.body).known;
       && w.pc.done < |known|
       && w' == w.(pc := Applying(w.pc.v, w.pc.done + 1), applied := w.applied + [Applied(w.pc.v.id, known[w.pc.done])])
  }

  ghost predicate Cut(w: World, f: Option<Version>, w': World) {
    f in w.store.possible && w' == w.(pc := Idle, store := Store(f, {f}))
  }

  ghost predicate Step(w: World, w': World) {
    || (exists tasks :: Save(w, tasks, w'))
    || WriteBack(w, w') || Take(w, w') || GiveUp(w, w') || Remove(w, w') || Sync(w, w') || ApplyOne(w, w')
    || (exists f :: Cut(w, f, w'))
  }

  ghost predicate Initial(w: World) {
    w == World(Store(None, {None}), Idle, 0, map[], [])
  }

  ghost predicate IsRun(run: seq<World>)
    ensures IsRun(run) ==> run != []
  {
    run != [] && Initial(run[0]) && forall i | 0 < i < |run| :: Step(run[i - 1], run[i])
  }

  /** The save is in no possible file any more, so no later boot can take it. */
  predicate Gone(store: Store, id: nat) {
    (forall f <- store.possible :: f.Some? ==> f.value.id != id) && (store.file.Some? ==> store.file.value.id != id)
  }

  predicate IsBeginning(w: World, v: Version) {
    v.id < w.nextId && v.id in w.saved && v.body <= SavedBody(w.saved[v.id])
  }

  /** The ids that were already applied before the current boot took v. */
  ghost predicate Inv(w: World) {
    && (forall f <- w.store.possible + {w.store.file} :: f.Some? ==> IsBeginning(w, f.value))
    && (forall i | 0 <= i < |w.applied| :: w.applied[i].id < w.nextId && Gone(w.store, w.applied[i].id))
    && (forall i, j | 0 <= i < j < |w.applied| :: w.applied[i] != w.applied[j])
    && (w.pc.Taken? || w.pc.Removed? ==>
          IsBeginning(w, w.pc.v) && forall i | 0 <= i < |w.applied| :: w.applied[i].id != w.pc.v.id)
    && (w.pc.Taken? ==> w.store.file == Some(w.pc.v))
    && (w.pc.Removed? ==> w.store.file == None)
    && (w.pc.Applying? ==>
          && IsBeginning(w, w.pc.v) && Gone(w.store, w.pc.v.id)
          && w.pc.done <= |ParseTasks(w.pc.v.body).known|
          && forall i | 0 <= i < |w.applied| && w.applied[i].id == w.pc.v.id ::
               exists k | 0 <= k < w.pc.done :: w.applied[i].task == ParseTasks(w.pc.v.body).known[k])
  }

  lemma SaveKeeps(w: World, tasks: seq<Bytes>, w': World)
    requires Inv(w) && Save(w, tasks, w')
    ensures Inv(w')
  {
    hide ParseTasks, SavedBody, AreTasks, NoRepeats;
    if tasks != [] {
      var body := SavedBody(tasks);
      forall f <- w'.store.possible + {w'.store.file} | f.Some? && f.value.id == w.nextId
        ensures f.value.body <= body
      {
        assert f !in w.store.possible;
      }
      forall f <- w'.store.possible + {w'.store.file} | f.Some? && f !in Beginnings(w.nextId, body)
        ensures IsBeginning(w, f.value) && IsBeginning(w', f.value)
      {
        assert f in w.store.possible;
      }
    }
  }

  lemma AppliedOnce(w: World, known: seq<Bytes>, a: seq<Applied>)
    requires w.pc.Applying? && NoRepeats(known) && w.pc.done < |known|
    requires forall i, j | 0 <= i < j < |w.applied| :: w.applied[i] != w.applied[j]
    requires forall i | 0 <= i < |w.applied| && w.applied[i].id == w.pc.v.id ::
               exists k | 0 <= k < w.pc.done :: w.applied[i].task == known[k]
    requires a == w.applied + [Applied(w.pc.v.id, known[w.pc.done])]
    ensures forall i, j | 0 <= i < j < |a| :: a[i] != a[j]
    ensures forall i | 0 <= i < |a| && a[i].id == w.pc.v.id ::
              exists k | 0 <= k < w.pc.done + 1 :: a[i].task == known[k]
  {
    forall i | 0 <= i < |w.applied| ensures a[i] != a[|w.applied|] {
      if a[i].id == w.pc.v.id {
        var k :| 0 <= k < w.pc.done && w.applied[i].task == known[k];
      }
    }
    forall i | 0 <= i < |a| && a[i].id == w.pc.v.id ensures exists k | 0 <= k < w.pc.done + 1 :: a[i].task == known[k] {
      if i < |w.applied| {
        var k :| 0 <= k < w.pc.done && w.applied[i].task == known[k];
        assert a[i].task == known[k];
      } else {
        assert a[i].task == known[w.pc.done];
      }
    }
  }

  lemma ApplyKeeps(w: World, w': World)
    requires Inv(w) && ApplyOne(w, w')
    ensures Inv(w')
  {
    hide SavedBody, AddLines, Lines, NoRepeats, AreTasks, Gone;
    var known := ParseTasks(w.pc.v.body).known;
    assert NoRepeats(known) by { ParsedKnown(w.pc.v.body); }
    AppliedOnce(w, known, w'.applied);
  }

  lemma ParsedKnown(data: Bytes)
    ensures NoRepeats(ParseTasks(data).known) && AreTasks(ParseTasks(data).known)
  {
    hide AddLines, Lines;
    ParsedKnownOnce(Parsed([], []), Lines(data));
  }

  lemma OtherKeeps(w: World, w': World)
    requires Inv(w)
    requires || WriteBack(w, w') || Take(w, w') || GiveUp(w, w') || Remove(w, w') || Sync(w, w')
             || exists f :: Cut(w, f, w')
    ensures Inv(w')
  {
    hide ParseTasks, SavedBody, Sync, Remove, Cut;
    if Remove(w, w') || Sync(w, w') {
      RemovalKeeps(w, w');
    } else if f :| Cut(w, f, w') {
      CutKeeps(w, f, w');
    }
  }

  lemma RemovalKeeps(w: World, w': World)
    requires Inv(w) && (Remove(w, w') || Sync(w, w'))
    ensures Inv(w')
  {
    hide ParseTasks, SavedBody;
  }

  lemma CutKeeps(w: World, f: Option<Version>, w': World)
    requires Inv(w) && Cut(w, f, w')
    ensures Inv(w')
  {
    hide ParseTasks, SavedBody;
    assert forall i | 0 <= i < |w.applied| :: Gone(w.store, w.applied[i].id);
  }

  lemma StepKeeps(w: World, w': World)
    requires Inv(w) && Step(w, w')
    ensures Inv(w')
  {
    hide Inv, Save, WriteBack, Take, GiveUp, Remove, Sync, ApplyOne, Cut;
    if tasks :| Save(w, tasks, w') {
      SaveKeeps(w, tasks, w');
    } else if ApplyOne(w, w') {
      ApplyKeeps(w, w');
    } else {
      OtherKeeps(w, w');
    }
  }

  lemma {:induction false} RunKeeps(run: seq<World>)
    requires IsRun(run)
    ensures Inv(run[|run| - 1])
    decreases |run|
  {
    hide Step;
    if |run| > 1 {
      RunKeeps(run[..|run| - 1]);
      StepKeeps(run[|run| - 2], run[|run| - 1]);
    }
  }

  /** Over every run of saves, boots and power cuts no repair is made twice, and when one has been made its
      removal is on the disk: no possible file names that save any more. */
  lemma AtMostOnce(run: seq<World>)
    requires IsRun(run)
    ensures var w := run[|run| - 1];
            && (forall i, j | 0 <= i < j < |w.applied| :: w.applied[i] != w.applied[j])
            && (forall i | 0 <= i < |w.applied| :: Gone(w.store, w.applied[i].id))
  {
    RunKeeps(run);
  }

  // ----- only chosen repairs are made, even from a queue cut short

  lemma {:induction false} LinesOfBeginning(s: Bytes, k: nat) returns (m: nat, p: Bytes)
    requires k <= |s|
    ensures m < |Lines(s)| && p <= Lines(s)[m] && Lines(s[..k]) == Lines(s)[..m] + [p]
    decreases |s|
  {
    hide Lines;
    var i := IndexByte(s, NL);
    if i < |s| {
      FirstLine(s, i);
    } else {
      assert s[..i] == s;
      OneLine(s);
    }
    if k <= i {
      m, p := 0, s[..k];
      assert s[..i][..k] == s[..k];
      OneLine(s[..k]);
    } else {
      var rest := s[i + 1..];
      var n, q := LinesOfBeginning(rest, k - i - 1);
      assert s[..k][..i] == s[..i] && s[..k][i + 1..] == rest[..k - i - 1];
      FirstLine(s[..k], i);
      m, p := n + 1, q;
      assert Lines(s)[..m] == [s[..i]] + Lines(rest)[..n];
    }
  }

  /** The line names no repair but one of `tasks`. */
  predicate Offers(tasks: seq<Bytes>, line: Bytes) {
    var name := TrimSpace(line);
    name == [] || HasPrefix(name, [HASH]) || !IsTask(name) || name in tasks
  }

  lemma {:induction false} KnownAreOffered(p: Parsed, lines: seq<Bytes>, tasks: seq<Bytes>)
    requires forall n <- p.known :: n in tasks
    requires forall i | 0 <= i < |lines| :: Offers(tasks, lines[i])
    ensures forall n <- AddLines(p, lines).known :: n in tasks
    decreases |lines|
  {
    hide IsTask, TrimSpace, HasPrefix;
    if lines != [] {
      assert Offers(tasks, lines[0]);
      KnownAreOffered(AddLine(p, lines[0]), lines[1..], tasks);
    }
  }

  lemma CutLineOffers(tasks: seq<Bytes>, line: Bytes, p: Bytes)
    requires p <= line && (line == COMMENT || line == [] || (IsTask(line) && line in tasks))
    ensures Offers(tasks, p)
  {
    hide TrimSpace, IsTask, SpaceAt, SpaceBefore;
    NothingBlank();
    if p == [] {
      TrimmedIsSame(p);
    } else if line == COMMENT {
      CutCommentOffers(tasks, p);
    } else {
      CutTaskOffers(tasks, line, p);
    }
  }

  lemma CutCommentOffers(tasks: seq<Bytes>, p: Bytes)
    requires p <= COMMENT && p != []
    ensures Offers(tasks, p)
  {
    hide TrimRight, IsTask, SpaceAt, SpaceBefore;
    CommentIsOneLine();
    AsciiEnds(p);
    TrimRightKeepsHead(p);
    assert TrimSpace(p)[..1] == [HASH];
  }

  lemma CutTaskOffers(tasks: seq<Bytes>, line: Bytes, p: Bytes)
    requires p <= line && p != [] && IsTask(line) && line in tasks
    ensures Offers(tasks, p)
  {
    hide TrimSpace, HasPrefix, SpaceAt, SpaceBefore, NoSpace, IsSpace;
    TaskIsVisible(line);
    assert forall i | 0 <= i < |p| :: p[i] == line[i];
    VisibleNoSpace(p);
    if IsTask(p) {
      TaskIsVisible(p);
    }
  }

  /** A queue file cut short anywhere names only repairs that were chosen. */
  lemma BeginningsNameOnlyChosen(tasks: seq<Bytes>, k: nat)
    requires tasks != [] && AreTasks(tasks) && k <= |SavedBody(tasks)|
    ensures forall n <- ParseTasks(SavedBody(tasks)[..k]).known :: n in tasks
  {
    hide SavedBody, TrimSpace, HasPrefix, AddLines, Lines, Offers, IsTask;
    var body := SavedBody(tasks);
    var m, p := LinesOfBeginning(body, k);
    SavedLines(tasks);
    var full := [COMMENT] + tasks + [[]];
    var lines := full[..m] + [p];
    forall i | 0 <= i < |lines| ensures Offers(tasks, lines[i]) {
      var line := full[i];
      assert 0 < i <= |tasks| ==> line == tasks[i - 1] && line in tasks;
      CutLineOffers(tasks, line, lines[i]);
    }
    KnownAreOffered(Parsed([], []), lines, tasks);
  }

  ghost predicate OnlyChosen(w: World) {
    && (forall id <- w.saved :: id < w.nextId && w.saved[id] != [] && AreTasks(w.saved[id]))
    && (forall i | 0 <= i < |w.applied| :: w.applied[i].id in w.saved && w.applied[i].task in w.saved[w.applied[i].id])
  }

  lemma StepKeepsChosen(w: World, w': World)
    requires Inv(w) && OnlyChosen(w) && Step(w, w')
    ensures OnlyChosen(w')
  {
    hide ParseTasks, SavedBody, Gone, AreTasks, Save, ApplyOne;
    if ApplyOne(w, w') {
      ApplyKeepsChosen(w, w');
    } else if tasks :| Save(w, tasks, w') {
      SaveKeepsChosen(w, tasks, w');
    }
  }

  lemma SaveKeepsChosen(w: World, tasks: seq<Bytes>, w': World)
    requires OnlyChosen(w) && Save(w, tasks, w') && Inv(w)
    ensures OnlyChosen(w')
  {
    hide ParseTasks, SavedBody, Gone, AreTasks;
  }

  lemma ApplyKeepsChosen(w: World, w': World)
    requires Inv(w) && OnlyChosen(w) && ApplyOne(w, w')
    ensures OnlyChosen(w')
  {
    hide ParseTasks, SavedBody, Gone, AreTasks;
    var v := w.pc.v;
    BeginningsNameOnlyChosen(w.saved[v.id], |v.body|);
    assert v.body == SavedBody(w.saved[v.id])[..|v.body|];
  }

  /** Every repair that is made was chosen in the save it came from. */
  lemma {:induction false} AppliedWereChosen(run: seq<World>)
    requires IsRun(run)
    ensures OnlyChosen(run[|run| - 1])
    decreases |run|
  {
    hide Step, Inv;
    if |run| > 1 {
      AppliedWereChosen(run[..|run| - 1]);
      RunKeeps(run[..|run| - 1]);
      StepKeepsChosen(run[|run| - 2], run[|run| - 1]);
    }
  }
}
