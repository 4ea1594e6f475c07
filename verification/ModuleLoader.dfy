/** Dependency-first module loading: loadModuleByName in cmd/vibeldr-init/extradrivers_linux.go. */
module ModuleLoader {
  import opened GoStrings

  /** The modules of the driver archive: name to the names it depends on. */
  type Index = map<Bytes, seq<Bytes>>

  /** One call of the kernel's loader, and its outcome. */
  datatype Attempt = Attempt(name: Bytes, ok: bool)

  datatype Outcome = AlreadyThere | Loaded | NotInArchive | LoadFailed

  /** Whether the kernel takes the n-th module it is offered. */
  type Kernel = (nat, Bytes) -> bool

  /** A module that has to be loaded: it is in the archive and not in the kernel yet. */
  predicate IsMissing(index: Index, loaded: set<Bytes>, name: Bytes) { name in index && name !in loaded }

  /** `rank` falls along every dependency of one missing module on another, as far as `name` leads: there is no cycle
      among them. It stays so as modules are loaded. */
  ghost predicate Ranked(index: Index, loaded: set<Bytes>, rank: map<Bytes, nat>, name: Bytes) {
    && (IsMissing(index, loaded, name) ==> name in rank)
    && forall m <- rank | IsMissing(index, loaded, m) :: RankedBelow(index, loaded, rank, m)
  }

  ghost predicate RankedBelow(index: Index, loaded: set<Bytes>, rank: map<Bytes, nat>, m: Bytes)
    requires m in rank && m in index
  {
    forall d <- index[m] | IsMissing(index, loaded, d) :: d in rank && rank[d] < rank[m]
  }

  /** A dependency that is missing is ranked, and lower; and the ranks serve for it as well. */
  lemma RankedNext(index: Index, loaded: set<Bytes>, now: set<Bytes>, rank: map<Bytes, nat>, name: Bytes, d: Bytes)
    requires Ranked(index, loaded, rank, name) && loaded <= now
    requires IsMissing(index, now, name) && d in index[name] && IsMissing(index, now, d)
    ensures name in rank && d in rank && rank[d] < rank[name] && Ranked(index, now, rank, d)
  {
    assert RankedBelow(index, loaded, rank, name);
    forall m <- rank | IsMissing(index, now, m) ensures RankedBelow(index, now, rank, m) {
      assert RankedBelow(index, loaded, rank, m);
    }
  }

  ghost predicate Tried(log: seq<Attempt>, name: Bytes, end: nat) {
    exists i | 0 <= i < end && i < |log| :: log[i].name == name
  }

  /** Before each attempt every dependency in the archive was loaded from the start or has been tried. */
  ghost predicate DependenciesFirst(index: Index, before: set<Bytes>, log: seq<Attempt>) {
    forall i | 0 <= i < |log| :: log[i].name in index &&
      forall d <- index[log[i].name] :: d in index ==> d in before || Tried(log, d, i)
  }

  /** What is loaded is what was loaded before and what has been loaded successfully since, each once. */
  ghost predicate Accounts(before: set<Bytes>, loaded: set<Bytes>, log: seq<Attempt>) {
    && (forall n :: n in loaded <==> n in before || exists i | 0 <= i < |log| :: log[i] == Attempt(n, true))
    && (forall i | 0 <= i < |log| && log[i].ok :: log[i].name !in before)
    && (forall i, j | 0 <= i < j < |log| && log[i].ok :: log[j].name != log[i].name)
  }

  /** The kernel decided every attempt. */
  ghost predicate Decided(kernel: Kernel, log: seq<Attempt>) {
    forall i | 0 <= i < |log| :: log[i].ok == kernel(i, log[i].name)
  }

  /** The first k dependencies are dealt with: outside the archive, loaded from the start, or tried. */
  ghost predicate Covered(index: Index, before: set<Bytes>, log: seq<Attempt>, depends: seq<Bytes>, k: nat)
    requires k <= |depends|
  {
    forall j | 0 <= j < k :: depends[j] in index ==> depends[j] in before || Tried(log, depends[j], |log|)
  }

  /** The attempts from `start` on are all for modules below name. */
  ghost predicate Below(rank: map<Bytes, nat>, name: Bytes, log: seq<Attempt>, start: nat, end: int) {
    forall i | start <= i < end && i < |log| :: log[i].name in rank && name in rank && rank[log[i].name] < rank[name]
  }

  lemma CoveredStays(index: Index, before: set<Bytes>, log: seq<Attempt>, longer: seq<Attempt>, depends: seq<Bytes>,
                     k: nat)
    requires k <= |depends| && log <= longer && Covered(index, before, log, depends, k)
    ensures Covered(index, before, longer, depends, k)
  {
    forall j | 0 <= j < k && depends[j] in index && depends[j] !in before ensures Tried(longer, depends[j], |longer|) {
      var i :| 0 <= i < |log| && log[i].name == depends[j];
      assert longer[i].name == depends[j];
    }
  }

  lemma CoveredNext(index: Index, before: set<Bytes>, log: seq<Attempt>, depends: seq<Bytes>, k: nat)
    requires k < |depends| && Covered(index, before, log, depends, k)
    requires depends[k] in index ==> depends[k] in before || Tried(log, depends[k], |log|)
    ensures Covered(index, before, log, depends, k + 1)
  {
    hide Tried;
  }

  class Loader {
    const index: Index
    const kernel: Kernel
    var loaded: set<Bytes>
    ghost const before: set<Bytes>
    ghost var log: seq<Attempt>
    var attempts: nat

    constructor (index: Index, kernel: Kernel, loaded: set<Bytes>)
      ensures this.index == index && this.kernel == kernel && this.loaded == loaded && before == loaded
      ensures log == [] && Valid()
    {
      this.index, this.kernel, this.loaded := index, kernel, loaded;
      before, log, attempts := loaded, [], 0;
    }

    ghost predicate Valid()
      reads this
    {
      && attempts == |log|
      && DependenciesFirst(index, before, log) && Accounts(before, loaded, log) && Decided(kernel, log)
    }

    /** Load a module after its dependencies; a dependency that fails does not stop it. */
    method LoadModuleByName(name: Bytes, ghost rank: map<Bytes, nat>) returns (r: Outcome)
      requires Valid() && Ranked(index, loaded, rank, name)
      modifies this`loaded, this`log, this`attempts
      ensures Valid()
      ensures old(loaded) <= loaded && old(log) <= log
      ensures r == AlreadyThere <==> name in old(loaded)
      ensures r == NotInArchive <==> name !in old(loaded) && name !in index
      ensures r == AlreadyThere || r == NotInArchive ==> loaded == old(loaded) && log == old(log)
      ensures r == Loaded || r == LoadFailed ==>
                |log| > |old(log)| && log[|log| - 1] == Attempt(name, r == Loaded) && (name in loaded <==> r == Loaded)
      ensures Below(rank, name, log, |old(log)|, |log| - 1)
      decreases if name in rank then rank[name] + 1 else 0
    {
      hide Tried, DependenciesFirst, Accounts, Decided, Covered, Below, Ranked;
      NoneBelow(rank, name, log, |log| - 1);
      if name in loaded {
        return AlreadyThere;
      }
      if name !in index {
        return NotInArchive;
      }
      NoneBelow(rank, name, log, |log|);
      var depends := index[name];
      NoneCovered(index, before, log, depends);
      for k := 0 to |depends|
        invariant Valid()
        invariant old(loaded) <= loaded && old(log) <= log && name !in loaded
        invariant Covered(index, before, log, depends, k)
        invariant Below(rank, name, log, |old(log)|, |log|)
      {
        var dep := depends[k];
        if dep in loaded {
          LoadedWasTried(before, loaded, log, dep);
        } else if dep in index {
          ghost var earlier, loadedEarlier := log, loaded;
          RankedNext(index, old(loaded), loaded, rank, name, dep);
          var outcome := LoadModuleByName(dep, rank);
          DependencyTried(index, before, rank, name, depends, k, loadedEarlier, earlier, loaded, log, |old(log)|);
        }
        CoveredNext(index, before, log, depends, k);
      }
      var ok := kernel(attempts, name);
      Attempted(index, kernel, before, rank, loaded, log, name, depends, |old(log)|);
      attempts := attempts + 1;
      log := log + [Attempt(name, ok)];
      if !ok {
        return LoadFailed;
      }
      loaded := loaded + {name};
      return Loaded;
    }
  }

  lemma NoneCovered(index: Index, before: set<Bytes>, log: seq<Attempt>, depends: seq<Bytes>)
    ensures Covered(index, before, log, depends, 0)
  {
  }

  lemma BelowNext(rank: map<Bytes, nat>, name: Bytes, dep: Bytes, earlier: seq<Attempt>, log: seq<Attempt>, start: nat)
    requires start <= |earlier| && earlier <= log && Below(rank, name, earlier, start, |earlier|)
    requires name in rank && dep in rank && rank[dep] < rank[name]
    requires |log| > |earlier| && log[|log| - 1].name == dep && Below(rank, dep, log, |earlier|, |log| - 1)
    ensures Below(rank, name, log, start, |log|) && Below(rank, name, log, |earlier|, |log|)
  {
    forall i | start <= i < |log| ensures log[i].name in rank && rank[log[i].name] < rank[name] {
      if i < |earlier| {
        assert log[i] == earlier[i];
      }
    }
  }

  /** A module is not loaded while its dependencies are: they rank below it. */
  lemma NotYetLoaded(rank: map<Bytes, nat>, name: Bytes, before: set<Bytes>, loadedEarlier: set<Bytes>,
                     loaded: set<Bytes>, earlier: seq<Attempt>, log: seq<Attempt>)
    requires Accounts(before, loadedEarlier, earlier) && Accounts(before, loaded, log) && earlier <= log
    requires Below(rank, name, log, |earlier|, |log|) && name !in loadedEarlier
    ensures name !in loaded
  {
    forall i | 0 <= i < |earlier| ensures earlier[i] != Attempt(name, true) {}
    forall i | 0 <= i < |log| ensures log[i] != Attempt(name, true) {
      if i < |earlier| {
        assert log[i] == earlier[i];
      }
    }
  }

  /** What stands after the call for a dependency that was missing. */
  lemma DependencyTried(index: Index, before: set<Bytes>, rank: map<Bytes, nat>, name: Bytes, depends: seq<Bytes>,
                        k: nat, loadedEarlier: set<Bytes>, earlier: seq<Attempt>, loaded: set<Bytes>,
                        log: seq<Attempt>, start: nat)
    requires k < |depends| && start <= |earlier| < |log| && earlier <= log && log[|log| - 1].name == depends[k]
    requires Accounts(before, loadedEarlier, earlier) && Accounts(before, loaded, log) && name !in loadedEarlier
    requires name in rank && depends[k] in rank && rank[depends[k]] < rank[name]
    requires Covered(index, before, earlier, depends, k)
    requires Below(rank, name, earlier, start, |earlier|) && Below(rank, depends[k], log, |earlier|, |log| - 1)
    ensures Covered(index, before, log, depends, k) && Tried(log, depends[k], |log|)
    ensures Below(rank, name, log, start, |log|) && name !in loaded
  {
    hide Tried, Accounts, Covered, Below;
    LastIsTried(log, depends[k]);
    CoveredStays(index, before, earlier, log, depends, k);
    BelowNext(rank, name, depends[k], earlier, log, start);
    NotYetLoaded(rank, name, before, loadedEarlier, loaded, earlier, log);
  }

  /** What stands after the module's own attempt. */
  lemma Attempted(index: Index, kernel: Kernel, before: set<Bytes>, rank: map<Bytes, nat>, loaded: set<Bytes>,
                  log: seq<Attempt>, name: Bytes, depends: seq<Bytes>, start: nat)
    requires DependenciesFirst(index, before, log) && Accounts(before, loaded, log) && Decided(kernel, log)
    requires name in index && name !in loaded && depends == index[name]
    requires Covered(index, before, log, depends, |depends|) && Below(rank, name, log, start, |log|)
    ensures var ok := kernel(|log|, name);
            var after := log + [Attempt(name, ok)];
            && DependenciesFirst(index, before, after) && Decided(kernel, after)
            && Accounts(before, if ok then loaded + {name} else loaded, after)
            && Below(rank, name, after, start, |log|)
  {
    hide Tried, DependenciesFirst, Accounts, Covered, Below, Decided;
    var ok := kernel(|log|, name);
    AttemptKeeps(index, before, loaded, log, name, ok, depends);
    DecidedNext(kernel, log, name);
    BelowThenLast(rank, name, log, start, Attempt(name, ok));
  }

  lemma NoneBelow(rank: map<Bytes, nat>, name: Bytes, log: seq<Attempt>, end: int)
    ensures Below(rank, name, log, |log|, end)
  {
  }

  lemma BelowThenLast(rank: map<Bytes, nat>, name: Bytes, log: seq<Attempt>, start: nat, a: Attempt)
    requires Below(rank, name, log, start, |log|)
    ensures Below(rank, name, log + [a], start, |log|)
  {
    var after := log + [a];
    forall i | start <= i < |log| ensures after[i].name in rank && name in rank && rank[after[i].name] < rank[name] {
      assert after[i] == log[i];
    }
    assert Below(rank, name, after, start, |log|);
  }

  lemma LastIsTried(log: seq<Attempt>, name: Bytes)
    requires log != [] && log[|log| - 1].name == name
    ensures Tried(log, name, |log|)
  {
  }

  lemma DecidedNext(kernel: Kernel, log: seq<Attempt>, name: Bytes)
    requires Decided(kernel, log)
    ensures Decided(kernel, log + [Attempt(name, kernel(|log|, name))])
  {
  }

  lemma LoadedWasTried(before: set<Bytes>, loaded: set<Bytes>, log: seq<Attempt>, name: Bytes)
    requires Accounts(before, loaded, log) && name in loaded
    ensures name in before || Tried(log, name, |log|)
  {
  }

  lemma AttemptKeeps(index: Index, before: set<Bytes>, loaded: set<Bytes>, log: seq<Attempt>, name: Bytes, ok: bool,
                     depends: seq<Bytes>)
    requires DependenciesFirst(index, before, log) && Accounts(before, loaded, log)
    requires name in index && name !in loaded && depends == index[name]
    requires Covered(index, before, log, depends, |depends|)
    ensures DependenciesFirst(index, before, log + [Attempt(name, ok)])
    ensures Accounts(before, if ok then loaded + {name} else loaded, log + [Attempt(name, ok)])
  {
    var after := log + [Attempt(name, ok)];
    forall i | 0 <= i < |after|
      ensures after[i].name in index
      ensures forall d <- index[after[i].name] :: d in index ==> d in before || Tried(after, d, i)
    {
      forall d <- index[after[i].name] | d in index && d !in before ensures Tried(after, d, i) {
        if i < |log| {
          assert Tried(log, d, i);
          var k :| 0 <= k < i && k < |log| && log[k].name == d;
          assert after[k].name == d;
        } else {
          var j :| 0 <= j < |depends| && depends[j] == d;
          var k :| 0 <= k < |log| && log[k].name == d;
          assert after[k].name == d;
        }
      }
    }
    var now := if ok then loaded + {name} else loaded;
    forall n ensures n in now <==> n in before || exists i | 0 <= i < |after| :: after[i] == Attempt(n, true) {
      if n in loaded && n !in before {
        var i :| 0 <= i < |log| && log[i] == Attempt(n, true);
        assert after[i] == Attempt(n, true);
      }
      if ok {
        assert after[|log|] == Attempt(name, true);
      }
    }
    forall i | 0 <= i < |log| && log[i].ok ensures log[i].name != name {
      assert log[i] == Attempt(log[i].name, true);
    }
  }
}
