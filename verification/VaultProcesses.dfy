/**
 * One vault directory used by any number of processes. A create writes into a stage directory
 * named after the address, which creates of one account share, then checks and renames under
 * the lock; a forget reads the listing before it takes the lock; a process can stop anywhere,
 * and its lock goes with it.
 */
module VaultProcesses {
  import opened Basics
  import opened Addresses
  import opened VaultNames
  import opened Vault

  /** Where a process stands in a create, with the document it wrote, or in a forget. */
  datatype Stand =
    | Away
    | Written(addr: Address, document: File)
    | Locked(addr: Address, document: File)
    | Absent(addr: Address, document: File)
    | Listed(addr: Address, protected: bool)
    | Removing(addr: Address, protected: bool)

  datatype World = World(files: Directory, stages: map<Address, File>, lock: Option<nat>, at: map<nat, Stand>)

  datatype Step =
    | WriteStage(p: nat, addr: Address, document: File)
    | LockToCreate(p: nat)
    | GiveUp(p: nat)
    | CheckAbsent(p: nat)
    | Promote(p: nat, intact: bool)
    | ReadListing(p: nat, addr: Address)
    | LockToForget(p: nat)
    | RemoveFile(p: nat)
    | Stop(p: nat)

  function At(w: World, p: nat): Stand {
    if p in w.at then w.at[p] else Away
  }

  /** The name a create gives the file: a keystore is sealed, anything else it writes is open. */
  predicate Seals(document: File) {
    document.Keystore?
  }

  predicate HoldsLock(s: Stand) {
    s.Locked? || s.Absent? || s.Removing?
  }

  predicate Creates(s: Stand) {
    s.Written? || s.Locked? || s.Absent?
  }

  function Moved(w: World, p: nat, to: Stand): World {
    w.(at := w.at[p := to],
       lock := if HoldsLock(to) then Some(p) else if w.lock == Some(p) then None else w.lock)
  }

  /** A create that ends takes the stage directory of its address with it, whoever wrote there last. */
  function Ended(w: World, p: nat, addr: Address): World {
    Moved(w.(stages := w.stages - {addr}), p, Away)
  }

  /** Whether the step writes a document into the stage directory of `addr`, named after the key in it. */
  predicate Stages(w: World, step: Step, addr: Address) {
    && step.WriteStage? && step.addr == addr && At(w, step.p).Away?
    && !step.document.Foreign? && step.document.key.address == addr
  }

  /** One step. A step its process is not at, or that waits for the lock, changes nothing. */
  function Apply(w: World, step: Step): World {
    var p, s := step.p, At(w, step.p);
    match step
    case WriteStage(_, addr, document) =>
      if Stages(w, step, addr) then
        Moved(w.(stages := w.stages[addr := document]), p, Written(addr, document))
      else w
    case LockToCreate(_) =>
      if s.Written? && w.lock.None? then Moved(w, p, Locked(s.addr, s.document)) else w
    case GiveUp(_) =>
      if s.Written? then Ended(w, p, s.addr) else w
    case CheckAbsent(_) =>
      if !s.Locked? then w
      else if HoldsKey(w.files, s.addr) then Ended(w, p, s.addr)
      else Moved(w, p, Absent(s.addr, s.document))
    case Promote(_, intact) =>
      if !s.Absent? then w
      else if !intact || s.addr !in w.stages then Ended(w, p, s.addr)
      else
        Ended(w.(files := w.files[PathOf(s.addr, Seals(s.document)) := w.stages[s.addr]]), p, s.addr)
    case ReadListing(_, addr) =>
      if s.Away? && HoldsKey(w.files, addr) then Moved(w, p, Listed(addr, PathOf(addr, true) in w.files)) else w
    case LockToForget(_) =>
      if s.Listed? && w.lock.None? then Moved(w, p, Removing(s.addr, s.protected)) else w
    case RemoveFile(_) =>
      if s.Removing? then Moved(w.(files := w.files - {PathOf(s.addr, s.protected)}), p, Away) else w
    case Stop(_) => Moved(w, p, Away)
  }

  function Run(w: World, steps: seq<Step>): World {
    if steps == [] then w else Apply(Run(w, steps[..|steps| - 1]), steps[|steps| - 1])
  }

  const START := World(map[], map[], None, map[])

  ghost predicate Inv(w: World) {
    && OneNameEach(w.files)
    && (forall p: nat :: HoldsLock(At(w, p)) <==> w.lock == Some(p))
    && (forall p: nat :: At(w, p).Absent? ==> !HoldsKey(w.files, At(w, p).addr))
  }

  lemma MovedAt(w: World, p: nat, to: Stand)
    ensures At(Moved(w, p, to), p) == to
    ensures forall q: nat :: q != p ==> At(Moved(w, p, to), q) == At(w, q)
  {
  }

  /** Moving keeps the invariant where the lock is free to take and what the stand says is so. */
  lemma MovedKeeps(w: World, p: nat, to: Stand)
    requires Inv(w)
    requires HoldsLock(to) ==> w.lock.None? || w.lock == Some(p)
    requires to.Absent? ==> !HoldsKey(w.files, to.addr)
    ensures Inv(Moved(w, p, to))
  {
    MovedAt(w, p, to);
  }

  /** The stages are no part of what the lock protects. */
  lemma StagesAreFree(w: World, stages: map<Address, File>)
    requires Inv(w)
    ensures Inv(w.(stages := stages))
  {
    var after := w.(stages := stages);
    assert forall p: nat :: At(after, p) == At(w, p);
  }

  lemma EndedKeeps(w: World, p: nat, addr: Address)
    requires Inv(w)
    ensures Inv(Ended(w, p, addr))
  {
    StagesAreFree(w, w.stages - {addr});
    MovedKeeps(w.(stages := w.stages - {addr}), p, Away);
  }

  /** Whoever finds an address absent under the lock still finds it absent when it renames. */
  lemma PromoteKeeps(w: World, p: nat)
    requires Inv(w) && At(w, p).Absent?
    ensures Inv(Apply(w, Promote(p, true)))
    ensures PathOf(At(w, p).addr, true) !in w.files && PathOf(At(w, p).addr, false) !in w.files
  {
    var s := At(w, p);
    if s.addr in w.stages {
      OneMoreName(w.files, s.addr, Seals(s.document), w.stages[s.addr]);
      var files := w.files[PathOf(s.addr, Seals(s.document)) := w.stages[s.addr]];
      MovedAt(w.(files := files, stages := w.stages - {s.addr}), p, Away);
    } else {
      EndedKeeps(w, p, s.addr);
    }
  }

  lemma StepKeeps(w: World, step: Step)
    requires Inv(w)
    ensures Inv(Apply(w, step))
    ensures forall name :: name in w.files && name in Apply(w, step).files ==>
              Apply(w, step).files[name] == w.files[name]
  {
    var p, s := step.p, At(w, step.p);
    match step
    case WriteStage(_, addr, document) =>
      StagesAreFree(w, w.stages[addr := document]);
      MovedKeeps(w.(stages := w.stages[addr := document]), p, Written(addr, document));
    case LockToCreate(_) =>
      if s.Written? && w.lock.None? {
        MovedKeeps(w, p, Locked(s.addr, s.document));
      }
    case GiveUp(_) =>
      if s.Written? {
        EndedKeeps(w, p, s.addr);
      }
    case CheckAbsent(_) =>
      if s.Locked? {
        EndedKeeps(w, p, s.addr);
        if !HoldsKey(w.files, s.addr) {
          MovedKeeps(w, p, Absent(s.addr, s.document));
        }
      }
    case Promote(_, intact) =>
      if s.Absent? {
        PromoteKeeps(w, p);
        EndedKeeps(w, p, s.addr);
      }
    case ReadListing(_, addr) => MovedKeeps(w, p, Listed(addr, PathOf(addr, true) in w.files));
    case LockToForget(_) =>
      if s.Listed? && w.lock.None? {
        MovedKeeps(w, p, Removing(s.addr, s.protected));
      }
    case RemoveFile(_) =>
      if s.Removing? {
        MovedKeeps(w.(files := w.files - {PathOf(s.addr, s.protected)}), p, Away);
      }
    case Stop(_) => MovedKeeps(w, p, Away);
  }

  lemma StartKeeps()
    ensures Inv(START)
  {
    assert forall p: nat :: At(START, p) == Away;
  }

  lemma {:induction false} RunKeeps(w: World, steps: seq<Step>)
    requires Inv(w)
    ensures Inv(Run(w, steps))
  {
    if steps != [] {
      RunKeeps(w, steps[..|steps| - 1]);
      StepKeeps(Run(w, steps[..|steps| - 1]), steps[|steps| - 1]);
    }
  }

  /**
   * In every run of any processes, stopping where they will: an address sits under at most
   * one of its two names, at most one process is inside the lock, and no step puts another
   * key under a name that holds one.
   */
  lemma EveryVault(steps: seq<Step>, step: Step)
    ensures
      var w := Run(START, steps);
      var after := Apply(w, step);
      && OneNameEach(w.files)
      && (forall p: nat, q: nat :: HoldsLock(At(w, p)) && HoldsLock(At(w, q)) ==> p == q)
      && (forall name :: name in w.files && name in after.files ==> after.files[name] == w.files[name])
      && (step.Promote? && after.files != w.files ==>
            !HoldsKey(w.files, At(w, step.p).addr) && HoldsKey(after.files, At(w, step.p).addr))
  {
    StartKeeps();
    RunKeeps(START, steps);
    StepKeeps(Run(START, steps), step);
  }

  // ---------- What each step does ----------

  /** Only a rename adds a file and only a removal takes one away, each the one its process set out to. */
  lemma WhatChangesFiles(w: World, step: Step)
    ensures
      var (s, after) := (At(w, step.p), Apply(w, step));
      && (!step.Promote? && !step.RemoveFile? ==> after.files == w.files)
      && (step.RemoveFile? ==>
            after.files == if s.Removing? then w.files - {PathOf(s.addr, s.protected)} else w.files)
      && (step.Promote? ==>
            after.files == if s.Absent? && step.intact && s.addr in w.stages
                           then w.files[PathOf(s.addr, s.document.Keystore?) := w.stages[s.addr]] else w.files)
  {
  }

  /** Whoever stops, ends, gives up or finds the key held is away, without the lock; and nobody but it has moved. */
  lemma WhoIsAway(w: World, step: Step)
    requires Inv(w)
    ensures
      var (s, after) := (At(w, step.p), Apply(w, step));
      && ((step.Stop? || (step.Promote? && s.Absent?) || (step.RemoveFile? && s.Removing?) ||
           (step.GiveUp? && s.Written?) || (step.CheckAbsent? && s.Locked? && HoldsKey(w.files, s.addr))) ==>
            At(after, step.p).Away? && after.lock != Some(step.p))
      && forall q: nat :: q != step.p ==> At(after, q) == At(w, q)
  {
  }

  /** A stage directory is made by a write, and goes with the create that ends; one that stops leaves it. */
  lemma WhatChangesStages(w: World, step: Step)
    ensures
      var (s, after) := (At(w, step.p), Apply(w, step));
      var ends := (step.GiveUp? && s.Written?) || (step.Promote? && s.Absent?) ||
                  (step.CheckAbsent? && s.Locked? && HoldsKey(w.files, s.addr));
      after.stages ==
        if step.WriteStage? && Stages(w, step, step.addr) then w.stages[step.addr := step.document]
        else if ends then w.stages - {s.addr}
        else w.stages
  {
  }

  function DocumentOf(key: SigningKey, password: Option<string>): File {
    match password
    case Some(given) => Keystore(key, given)
    case None => OpenDocument(key)
  }

  /** A create nobody interrupts puts its document under the account's name, or finds the key held and puts nothing. */
  lemma CreateLands(w: World, p: nat, key: SigningKey, password: Option<string>)
    requires Inv(w) && At(w, p).Away? && w.lock.None?
    ensures
      var (addr, document) := (key.address, DocumentOf(key, password));
      var checked := Apply(Apply(Apply(w, WriteStage(p, addr, document)), LockToCreate(p)), CheckAbsent(p));
      var after := Apply(checked, Promote(p, true));
      && At(after, p).Away? && after.lock.None? && addr !in after.stages
      && after.files == if PathOf(addr, true) in w.files || PathOf(addr, false) in w.files then w.files
                        else w.files[PathOf(addr, password.Some?) := document]
  {
    var addr, document := key.address, DocumentOf(key, password);
    var staged := Apply(w, WriteStage(p, addr, document));
    assert At(staged, p) == Written(addr, document) && staged.lock.None? && addr in staged.stages;
    var locked := Apply(staged, LockToCreate(p));
    assert At(locked, p) == Locked(addr, document) && locked.files == w.files && locked.lock == Some(p);
    var checked := Apply(locked, CheckAbsent(p));
    if HoldsKey(w.files, addr) {
      assert At(checked, p).Away? && checked.lock.None?;
    } else {
      assert At(checked, p) == Absent(addr, document) && addr in checked.stages;
      assert checked.stages[addr] == document;
    }
  }

  /** A forget nobody interrupts removes the account, under whichever name it has, and nothing else. */
  lemma ForgetRemoves(w: World, p: nat, addr: Address)
    requires Inv(w) && At(w, p).Away? && w.lock.None? && HoldsKey(w.files, addr)
    ensures
      var after := Apply(Apply(Apply(w, ReadListing(p, addr)), LockToForget(p)), RemoveFile(p));
      && !HoldsKey(after.files, addr) && At(after, p).Away? && after.lock.None?
      && after.files == w.files - {PathOf(addr, true), PathOf(addr, false)}
  {
    var listed := Apply(w, ReadListing(p, addr));
    assert At(listed, p) == Listed(addr, PathOf(addr, true) in w.files) && listed.lock.None?;
    var locked := Apply(listed, LockToForget(p));
    assert At(locked, p) == Removing(addr, PathOf(addr, true) in w.files) && locked.files == w.files;
  }

  // ---------- Whose document is promoted ----------

  /** The document last written into the stage directory of `addr`, by whichever process. */
  function LastStaged(w: World, steps: seq<Step>, addr: Address): Option<File> {
    if steps == [] then None
    else
      var n := |steps| - 1;
      if Stages(Run(w, steps[..n]), steps[n], addr) then Some(steps[n].document)
      else LastStaged(w, steps[..n], addr)
  }

  /** What a stage directory holds, while it is there, is the last document written into it. */
  lemma {:induction false} StageHoldsTheLast(steps: seq<Step>, addr: Address)
    ensures
      var stages := Run(START, steps).stages;
      addr in stages ==>
        && LastStaged(START, steps, addr) == Some(stages[addr])
        && !stages[addr].Foreign? && stages[addr].key.address == addr
  {
    if steps != [] {
      StageHoldsTheLast(steps[..|steps| - 1], addr);
    }
  }

  /** Whether a document under the name a create gives it opens as that create was asked to seal it. */
  predicate SealedAs(document: File, password: Option<string>) {
    match password
    case Some(given) => document.Keystore? && document.password == given
    case None => document.OpenDocument?
  }

  lemma RenamedOpens(files: Directory, addr: Address, password: Option<string>, document: File)
    requires !HoldsKey(files, addr) && !document.Foreign? && document.key.address == addr
    ensures
      OpenError(files[PathOf(addr, password.Some?) := document], addr, password).None? <==> SealedAs(document, password)
  {
    NamesDiffer(addr);
  }

  /**
   * What a create's rename comes to, in every run: nothing, where its stage directory is gone;
   * and otherwise the document last staged for the account by any process, so the account opens
   * as this create was asked to seal it exactly where that one document is sealed the same way.
   */
  lemma WhatIsPromoted(steps: seq<Step>, p: nat, key: SigningKey, password: Option<string>)
    requires At(Run(START, steps), p) == Absent(key.address, DocumentOf(key, password))
    ensures
      var (w, after) := (Run(START, steps), Apply(Run(START, steps), Promote(p, true)));
      var last := LastStaged(START, steps, key.address);
      if key.address !in w.stages then after.files == w.files
      else
        && last.Some? && after.files == w.files[PathOf(key.address, password.Some?) := last.value]
        && (OpenError(after.files, key.address, password).None? <==> SealedAs(last.value, password))
  {
    var w := Run(START, steps);
    StartKeeps();
    RunKeeps(START, steps);
    StageHoldsTheLast(steps, key.address);
    if key.address in w.stages {
      RenamedOpens(w.files, key.address, password, w.stages[key.address]);
    }
  }

  /** No other process is in a create of the same address, and what is staged is this one's. */
  ghost predicate Alone(w: World, p: nat) {
    var s := At(w, p);
    && Creates(s) && s.addr in w.stages && w.stages[s.addr] == s.document
    && forall q: nat :: q != p && Creates(At(w, q)) ==> At(w, q).addr != s.addr
  }

  /** A step after which a process that was alone still is, unless its own create ended. */
  predicate Elsewhere(step: Step, p: nat, addr: Address) {
    step.WriteStage? ==> step.p != p && step.addr != addr
  }

  lemma AloneStep(w: World, step: Step, p: nat)
    requires Alone(w, p) && Elsewhere(step, p, At(w, p).addr)
    ensures
      var after := Apply(w, step);
      if Creates(At(after, p)) then
        Alone(after, p) && At(after, p).addr == At(w, p).addr && At(after, p).document == At(w, p).document
      else step.p == p
  {
    assert forall q: nat :: q != step.p ==> At(Apply(w, step), q) == At(w, q);
  }

  /** Nobody else creates the account between the stage being written and its rename. */
  lemma {:induction false} AloneRun(w: World, steps: seq<Step>, p: nat)
    requires Alone(w, p)
    requires forall i :: 0 <= i < |steps| ==> Elsewhere(steps[i], p, At(w, p).addr)
    ensures Creates(At(Run(w, steps), p)) ==>
              && Alone(Run(w, steps), p)
              && At(Run(w, steps), p).addr == At(w, p).addr
              && At(Run(w, steps), p).document == At(w, p).document
  {
    if steps != [] {
      var n := |steps| - 1;
      var before := Run(w, steps[..n]);
      AloneRun(w, steps[..n], p);
      if Creates(At(before, p)) {
        AloneStep(before, steps[n], p);
      } else {
        StaysOut(before, steps[n], p);
      }
    }
  }

  lemma StaysOut(w: World, step: Step, p: nat)
    requires !Creates(At(w, p)) && !(step.WriteStage? && step.p == p)
    ensures !Creates(At(Apply(w, step), p))
  {
  }

  lemma {:induction false} RunConcat(w: World, first: seq<Step>, more: seq<Step>)
    ensures Run(w, first + more) == Run(Run(w, first), more)
  {
    if more == [] {
      assert first + more == first;
    } else {
      var n := |more| - 1;
      RunConcat(w, first, more[..n]);
      assert first + more == (first + more[..n]) + [more[n]];
      Then(w, first + more[..n], more[n]);
    }
  }

  /** So a create nobody else's overlaps, in any run, promotes the key it wrote, and it opens. */
  lemma PromotesItsOwn(earlier: seq<Step>, steps: seq<Step>, p: nat, key: SigningKey, password: Option<string>)
    requires Alone(Run(START, earlier), p)
    requires At(Run(START, earlier), p).addr == key.address
    requires At(Run(START, earlier), p).document == DocumentOf(key, password)
    requires forall i :: 0 <= i < |steps| ==> Elsewhere(steps[i], p, key.address)
    requires At(Run(START, earlier + steps), p).Absent?
    ensures
      var after := Apply(Run(START, earlier + steps), Promote(p, true));
      && PathOf(key.address, password.Some?) in after.files
      && after.files[PathOf(key.address, password.Some?)] == DocumentOf(key, password)
      && OpenError(after.files, key.address, password).None?
  {
    RunConcat(START, earlier, steps);
    AloneRun(Run(START, earlier), steps, p);
    StageHoldsTheLast(earlier + steps, key.address);
    WhatIsPromoted(earlier + steps, p, key, password);
  }

  /**
   * Overlapping creates can fail it. Two processes import one key, the first with a password and the
   * second without: the first promotes what the second staged, under the name of a sealed
   * file, and the account it answers for then opens neither with the password nor without one.
   */
  lemma SharedStage(key: SigningKey, password: string)
    ensures
      var steps := [WriteStage(0, key.address, Keystore(key, password)), WriteStage(1, key.address, OpenDocument(key)),
                    LockToCreate(0), CheckAbsent(0), Promote(0, true)];
      var files := Run(START, steps).files;
      && files == map[PathOf(key.address, true) := OpenDocument(key)]
      && OpenError(files, key.address, Some(password)) == Some(Corrupt)
      && OpenError(files, key.address, None) == Some(PasswordRequired)
  {
    var addr, sealed, open := key.address, Keystore(key, password), OpenDocument(key);
    var checked := FirstChecks(addr, sealed, open);
    RunOfFive(START, WriteStage(0, addr, sealed), WriteStage(1, addr, open), LockToCreate(0), CheckAbsent(0),
              Promote(0, true));
    NamesDiffer(addr);
  }

  lemma FirstChecks(addr: Address, sealed: File, open: File) returns (checked: World)
    requires sealed.Keystore? && open.OpenDocument? && sealed.key.address == addr == open.key.address
    ensures
      var one := Apply(START, WriteStage(0, addr, sealed));
      var two := Apply(one, WriteStage(1, addr, open));
      checked == Apply(Apply(two, LockToCreate(0)), CheckAbsent(0))
    ensures checked.files == map[] && checked.stages == map[addr := open] && At(checked, 0) == Absent(addr, sealed)
  {
    var one := Apply(START, WriteStage(0, addr, sealed));
    assert one.stages == map[addr := sealed] && At(one, 0) == Written(addr, sealed);
    var two := Apply(one, WriteStage(1, addr, open));
    assert two.stages == map[addr := open] && At(two, 0) == Written(addr, sealed);
    checked := Apply(Apply(two, LockToCreate(0)), CheckAbsent(0));
  }

  lemma Then(w: World, steps: seq<Step>, step: Step)
    ensures Run(w, steps + [step]) == Apply(Run(w, steps), step)
  {
    assert (steps + [step])[..|steps|] == steps;
  }

  lemma RunOfFive(w: World, a: Step, b: Step, c: Step, d: Step, e: Step)
    ensures Run(w, [a, b, c, d, e]) == Apply(Apply(Apply(Apply(Apply(w, a), b), c), d), e)
  {
    assert [a, b, c, d, e] == [a, b, c, d] + [e] && [a, b, c, d] == [a, b, c] + [d];
    assert [a, b, c] == [a, b] + [c] && [a, b] == [a] + [b] && [a] == [] + [a];
    Then(w, [], a);
    Then(w, [a], b);
    Then(w, [a, b], c);
    Then(w, [a, b, c], d);
    Then(w, [a, b, c, d], e);
  }
}
