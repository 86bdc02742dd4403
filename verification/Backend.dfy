/**
 * The backend the view talks to: one thread runs the queued calls in order and posts their
 * replies, the other lands the replies in order, and a reply can queue further calls.
 */
module Backend {
  import opened Basics
  import opened Addresses
  import opened CallQueue

  /** What the notice says, and about which account where it counts edits. */
  datatype Notice =
    | NoNotice
    | AlreadyInStore(about: Address, dropped: nat)
    | Written(about: Address, first: nat, dropped: nat)
    | OtherNotice

  function Count(counts: map<Address, nat>, addr: Address): nat {
    if addr in counts then counts[addr] else 0
  }

  function Plus(counts: map<Address, nat>, addr: Address, n: nat): (r: map<Address, nat>)
    ensures Count(r, addr) == Count(counts, addr) + n
    ensures forall other: Address :: other != addr ==> Count(r, other) == Count(counts, other)
  {
    counts[addr := Count(counts, addr) + n]
  }

  /** One account's count grew by `n`, and no other's changed. */
  ghost predicate Gained(before: map<Address, nat>, after: map<Address, nat>, addr: Address, n: nat) {
    forall other: Address :: Count(after, other) == Count(before, other) + if other == addr then n else 0
  }

  /** The dropped edits a reply counts, and of which account. */
  function CountIn(l: Landing): Option<(Address, nat)> {
    if !l.reply.Answered? then None
    else
      match l.job
      case ReadStore(addr, _) => Some((addr, l.reply.answer.dropped))
      case Publish(Some(addr)) => Some((addr, l.reply.answer.dropped))
      case _ => None
  }

  /** Every count answered of `addr` was put up, waits, or went with its account. */
  predicate EvenAt(answered: map<Address, nat>, putUp: map<Address, nat>, waiting: map<Address, nat>,
                   forgotten: map<Address, nat>, addr: Address)
  {
    Count(answered, addr) == Count(putUp, addr) + Count(waiting, addr) + Count(forgotten, addr)
  }

  ghost predicate Even(answered: map<Address, nat>, putUp: map<Address, nat>, waiting: map<Address, nat>,
                       forgotten: map<Address, nat>)
  {
    forall addr: Address :: EvenAt(answered, putUp, waiting, forgotten, addr)
  }

  /** A waiting count moves whole: on screen, or away with its account. */
  lemma WaitingMoves(answered: map<Address, nat>, putUp: map<Address, nat>, waiting: map<Address, nat>,
                     forgotten: map<Address, nat>, addr: Address)
    requires Even(answered, putUp, waiting, forgotten)
    ensures Even(answered, Plus(putUp, addr, Count(waiting, addr)), waiting - {addr}, forgotten)
    ensures Even(answered, putUp, waiting - {addr}, Plus(forgotten, addr, Count(waiting, addr)))
    ensures Count(waiting, addr) == 0 ==> Even(answered, putUp, waiting - {addr}, forgotten)
  {
    forall other: Address
      ensures EvenAt(answered, Plus(putUp, addr, Count(waiting, addr)), waiting - {addr}, forgotten, other)
      ensures EvenAt(answered, putUp, waiting - {addr}, Plus(forgotten, addr, Count(waiting, addr)), other)
      ensures Count(waiting, addr) == 0 ==> EvenAt(answered, putUp, waiting - {addr}, forgotten, other)
    {
      assert EvenAt(answered, putUp, waiting, forgotten, other);
    }
  }

  /** An answered count goes to one place. */
  lemma CountLands(answered: map<Address, nat>, putUp: map<Address, nat>, waiting: map<Address, nat>,
                   forgotten: map<Address, nat>, addr: Address, n: nat)
    requires Even(answered, putUp, waiting, forgotten)
    ensures Even(Plus(answered, addr, n), Plus(putUp, addr, n), waiting, forgotten)
    ensures Even(Plus(answered, addr, n), putUp, Plus(waiting, addr, n), forgotten)
    ensures n == 0 ==> Even(Plus(answered, addr, n), putUp, waiting, forgotten)
  {
    forall other: Address
      ensures EvenAt(Plus(answered, addr, n), Plus(putUp, addr, n), waiting, forgotten, other)
      ensures EvenAt(Plus(answered, addr, n), putUp, Plus(waiting, addr, n), forgotten, other)
      ensures n == 0 ==> EvenAt(Plus(answered, addr, n), putUp, waiting, forgotten, other)
    {
      assert EvenAt(answered, putUp, waiting, forgotten, other);
    }
  }

  class Backend {
    var inFlight: nat
    var busy: bool
    /** A stamp that no two selections share. */
    var selection: nat
    var selected: Option<Address>
    var contextReady: bool
    /** Counts of dropped edits, answered while another account was on screen. */
    var waiting: map<Address, nat>
    var notice: Notice
    /** The calls not yet run, and the replies not yet landed. */
    var pool: seq<Job>
    var landing: seq<Landing>
    /** The accounts the core would list now. */
    var listing: seq<Address>
    /** The selection the last queued read was for. */
    ghost var asked: nat
    /** The counts landed of each account: all of them, and where each went. */
    ghost var answered: map<Address, nat>
    ghost var putUp: map<Address, nat>
    ghost var forgotten: map<Address, nat>

    ghost predicate Balanced()
      reads this
    {
      Even(answered, putUp, waiting, forgotten)
    }

    /** Holds inside a handler too, `landing` replies being in the middle of landing. */
    ghost predicate Consistent(inHand: nat)
      reads this
    {
      && inFlight == |pool| + |landing| + inHand
      && (busy <==> inFlight > 0)
      && Balanced()
      && (selected.Some? ==> selected.value !in waiting)
      && (notice.AlreadyInStore? || notice.Written? ==> selected == Some(notice.about))
      && (forall l :: l in landing && l.job.Publish? && l.reply.Answered? ==> l.job.target.Some?)
    }

    /** A read of the account on screen has been queued since it came on screen. */
    ghost predicate Asked()
      reads this
    {
      contextReady && selected.Some? ==> asked == selection
    }

    ghost predicate Valid()
      reads this
    {
      Consistent(0) && Asked()
    }

    ghost function Rank(): Rank
      reads this
    {
      RankOf(pool, landing, selected, listing)
    }

    constructor (accounts: seq<Address>)
      ensures Valid() && listing == accounts && pool == [ListAccounts] && busy
    {
      inFlight, busy, selection, selected, contextReady := 1, true, 0, None, false;
      waiting, notice, pool, landing, listing := map[], NoNotice, [ListAccounts], [], accounts;
      asked, answered, putUp, forgotten := 0, map[], map[], map[];
    }

    // ---------- Queueing ----------

    method Call(job: Job)
      modifies this`inFlight, this`busy, this`pool
      ensures pool == old(pool) + [job] && inFlight == old(inFlight) + 1 && busy
    {
      inFlight := inFlight + 1;
      busy := true;
      pool := pool + [job];
    }

    method ReloadAccounts()
      modifies this`inFlight, this`busy, this`pool
      ensures pool == old(pool) + [ListAccounts] && inFlight == old(inFlight) + 1 && busy
    {
      Call(ListAccounts);
    }

    method ReloadState()
      modifies this`inFlight, this`busy, this`pool
      ensures
        if selected.None? then pool == old(pool) && inFlight == old(inFlight) && busy == old(busy)
        else pool == old(pool) + [ReadState(selected.value)] && inFlight == old(inFlight) + 1 && busy
    {
      if selected.Some? {
        Call(ReadState(selected.value));
      }
    }

    method Refresh()
      modifies this`inFlight, this`busy, this`pool, this`asked
      ensures inFlight == old(inFlight) + 1 && busy
      ensures pool == old(pool) + [if selected.None? then ListAccounts else ReadStore(selected.value, selection)]
      ensures asked == if selected.None? then old(asked) else selection
    {
      if selected.None? {
        ReloadAccounts();
      } else {
        asked := selection;
        Call(ReadStore(selected.value, selection));
      }
    }

    // ---------- Counts ----------

    /** Say on screen how many edits of the account on screen were dropped. */
    method PutUp(addr: Address, n: nat, says: Notice)
      requires selected == Some(addr)
      requires says == AlreadyInStore(addr, n) || (says.Written? && says.about == addr && says.dropped == n)
      modifies this`notice, this`putUp
      ensures notice == says && putUp == Plus(old(putUp), addr, n)
    {
      notice := says;
      putUp := Plus(putUp, addr, n);
    }

    method SetSelection(addr: Option<Address>)
      requires Balanced()
      modifies this`selection, this`selected, this`waiting, this`notice, this`putUp
      ensures Balanced()
      ensures selected == addr && selection == old(selection) + 1
      ensures waiting == if addr.Some? then old(waiting) - {addr.value} else old(waiting)
      ensures notice ==
                if addr.Some? && Count(old(waiting), addr.value) > 0 then
                  AlreadyInStore(addr.value, Count(old(waiting), addr.value))
                else NoNotice
      ensures if addr.Some? then Gained(old(putUp), putUp, addr.value, Count(old(waiting), addr.value))
              else putUp == old(putUp)
    {
      selection := selection + 1;
      selected := addr;
      notice := NoNotice;
      if addr.Some? {
        var n := Count(waiting, addr.value);
        WaitingMoves(answered, putUp, waiting, forgotten, addr.value);
        waiting := waiting - {addr.value};
        if n > 0 {
          PutUp(addr.value, n, AlreadyInStore(addr.value, n));
        }
      }
    }

    /** A count answered: put up where its account is on screen, kept for when it next is otherwise. */
    method LandCount(addr: Address, n: nat, says: Notice)
      requires Balanced() && (selected.Some? ==> selected.value !in waiting)
      requires says == AlreadyInStore(addr, n) || (says.Written? && says.about == addr && says.dropped == n)
      modifies this`waiting, this`notice, this`putUp, this`answered
      ensures Balanced() && (selected.Some? ==> selected.value !in waiting)
      ensures CountLanded(addr, n, old(answered), old(putUp), old(waiting))
      ensures notice == if selected == Some(addr) then says else old(notice)
    {
      CountLands(answered, putUp, waiting, forgotten, addr, n);
      answered := Plus(answered, addr, n);
      if selected == Some(addr) {
        PutUp(addr, n, says);
      } else if n > 0 {
        waiting := Plus(waiting, addr, n);
      }
    }

    method DropCounts(addr: Address)
      requires Balanced()
      modifies this`waiting, this`forgotten
      ensures Balanced() && waiting == old(waiting) - {addr}
      ensures Gained(old(forgotten), forgotten, addr, Count(old(waiting), addr))
    {
      WaitingMoves(answered, putUp, waiting, forgotten, addr);
      forgotten := Plus(forgotten, addr, Count(waiting, addr));
      waiting := waiting - {addr};
    }

    // ---------- Landing ----------

    /** A listing leaves a selected account selected while it is on it, and selects the first one otherwise. */
    method LandListing(answer: Answer)
      requires Consistent(1) && Asked()
      modifies this`selection, this`selected, this`waiting, this`notice, this`putUp,
               this`inFlight, this`busy, this`pool, this`asked
      ensures Consistent(1) && Asked() && LandedAs(Landing(ListAccounts, Answered(answer)), old(selected), old(pool))
      ensures
        var list := answer.listing;
        if list == [] then selected == None && pool == old(pool) && notice == NoNotice
        else if old(selected).Some? && old(selected).value in list then
          && selected == old(selected) && selection == old(selection) && notice == old(notice)
          && waiting == old(waiting) && putUp == old(putUp) && pool == old(pool) + [ReadState(selected.value)]
        else
          && selected == Some(list[0]) && selection == old(selection) + 1 && waiting == old(waiting) - {list[0]}
          && pool == old(pool) + [ReadState(list[0])] +
                     if contextReady then [ReadStore(list[0], selection)] else []
    {
      var list := answer.listing;
      if list == [] {
        SetSelection(None);
        return;
      }
      var stillHeld := selected.Some? && selected.value in list;
      if !stillHeld {
        SetSelection(Some(list[0]));
      }
      ReloadState();
      if !stillHeld && contextReady {
        Refresh();
      }
    }

    /** The selection and the queue as a reply leaves them. */
    ghost predicate LandedAs(l: Landing, before: Option<Address>, calls: seq<Job>)
      reads this
    {
      && selected == SelectedAfter(l, before)
      && pool == calls + FollowUps(l, before, selection, contextReady)
    }

    method LandRead(addr: Address, reply: Reply)
      requires Consistent(1) && Asked() && !reply.Skipped?
      modifies this`waiting, this`notice, this`putUp, this`answered, this`inFlight, this`busy, this`pool
      ensures Consistent(1) && Asked() && pool == old(pool) + [ListAccounts]
      ensures if reply.Answered? then
                CountLanded(addr, reply.answer.dropped, old(answered), old(putUp), old(waiting))
              else answered == old(answered)
      ensures reply.Answered? && reply.answer.dropped > 0 && selected == Some(addr) ==>
                notice == AlreadyInStore(addr, reply.answer.dropped)
      ensures !(reply.Answered? && reply.answer.dropped > 0 && selected == Some(addr)) ==> notice == old(notice)
    {
      if reply.Answered? && reply.answer.dropped > 0 {
        LandCount(addr, reply.answer.dropped, AlreadyInStore(addr, reply.answer.dropped));
      }
      ReloadAccounts();
    }

    /** A count of `n` answered of `addr`: on screen where its account is, waiting otherwise. */
    ghost predicate CountLanded(addr: Address, n: nat, answeredBefore: map<Address, nat>,
                                putUpBefore: map<Address, nat>, waitingBefore: map<Address, nat>)
      reads this
    {
      && Gained(answeredBefore, answered, addr, n)
      && Gained(putUpBefore, putUp, addr, if selected == Some(addr) then n else 0)
      && Gained(waitingBefore, waiting, addr, if selected == Some(addr) then 0 else n)
    }

    ghost predicate Counted(count: Option<(Address, nat)>, answeredBefore: map<Address, nat>,
                            putUpBefore: map<Address, nat>, waitingBefore: map<Address, nat>)
      reads this
    {
      match count
      case Some((addr, n)) => CountLanded(addr, n, answeredBefore, putUpBefore, waitingBefore)
      case None => answered == answeredBefore
    }

    /** An account created, imported or observed comes on screen. `already` is said over any count just put up. */
    method LandNew(addr: Address, already: bool)
      requires Consistent(1)
      modifies this`selection, this`selected, this`waiting, this`notice, this`putUp,
               this`inFlight, this`busy, this`pool, this`asked
      ensures Consistent(1) && Asked() && selected == Some(addr)
      ensures pool == old(pool) + [ListAccounts, ReadState(addr), ReadStore(addr, selection)]
      ensures waiting == old(waiting) - {addr} && Gained(old(putUp), putUp, addr, Count(old(waiting), addr))
      ensures notice ==
                if already then OtherNotice
                else if Count(old(waiting), addr) > 0 then AlreadyInStore(addr, Count(old(waiting), addr))
                else NoNotice
    {
      SetSelection(Some(addr));
      if already {
        notice := OtherNotice;
      }
      ReloadAccounts();
      ReloadState();
      Refresh();
    }

    /** An account forgotten or no longer observed takes its waiting count with it. */
    method LandGone(addr: Address)
      requires Consistent(1) && Asked()
      modifies this`selection, this`selected, this`waiting, this`notice, this`putUp, this`forgotten,
               this`inFlight, this`busy, this`pool
      ensures Consistent(1) && Asked() && pool == old(pool) + [ListAccounts]
      ensures selected == if old(selected) == Some(addr) then None else old(selected)
      ensures waiting == old(waiting) - {addr}
      ensures notice == if old(selected) == Some(addr) then NoNotice else old(notice)
    {
      DropCounts(addr);
      if selected == Some(addr) {
        SetSelection(None);
      }
      ReloadAccounts();
    }

    method LandPublish(target: Option<Address>, reply: Reply)
      requires Consistent(1) && Asked() && !reply.Skipped? && (reply.Answered? ==> target.Some?)
      modifies this`waiting, this`notice, this`putUp, this`answered, this`inFlight, this`busy, this`pool, this`asked
      ensures Consistent(1) && Asked()
      ensures pool == old(pool) + FollowUps(Landing(Publish(target), reply), selected, selection, contextReady)
      ensures pool == old(pool) +
                [if reply.Answered? || target != selected || selected.None? then ListAccounts
                 else ReadStore(selected.value, selection)]
      ensures if reply.Answered? then
                CountLanded(target.value, reply.answer.dropped, old(answered), old(putUp), old(waiting))
              else answered == old(answered) && putUp == old(putUp) && waiting == old(waiting)
      ensures reply.Answered? && selected == target ==>
                notice == match reply.answer.firstNew
                          case None => AlreadyInStore(target.value, reply.answer.dropped)
                          case Some(first) => Written(target.value, first, reply.answer.dropped)
      ensures !(reply.Answered? && selected == target) ==> notice == old(notice)
    {
      if reply.Answered? {
        var addr, dropped := target.value, reply.answer.dropped;
        LandCount(addr, dropped, match reply.answer.firstNew
                                 case None => AlreadyInStore(addr, dropped)
                                 case Some(first) => Written(addr, first, dropped));
        ReloadAccounts();
      } else if target != selected {
        ReloadAccounts();
      } else {
        Refresh();
      }
    }

    method LandRefused(job: Job)
      modifies this`notice
      ensures notice == if job.StopObserving? || (job.EditLog? && job.loud) then OtherNotice else old(notice)
    {
      if job.StopObserving? || (job.EditLog? && job.loud) {
        notice := OtherNotice;
      }
    }

    /** The handlers of an answer that counts nothing. */
    method LandAnswer(job: Job, answer: Answer)
      requires Consistent(1) && Asked() && !job.Publish? && !job.ReadStore?
      modifies this`selection, this`selected, this`waiting, this`notice, this`putUp,
               this`forgotten, this`inFlight, this`busy, this`pool, this`asked
      ensures Consistent(1) && Asked() && LandedAs(Landing(job, Answered(answer)), old(selected), old(pool))
      ensures job.EditLog? ==> notice == NoNotice
      ensures job.Unlock? || job.EditLog? ==> pool == old(pool) + [ListAccounts] && selected == old(selected)
      ensures job.ReadState? || job.Export? ==>
                pool == old(pool) && selected == old(selected) && notice == old(notice)
      ensures job.Create? || job.Import? || job.Observe? ==>
                var addr := if job.Observe? then job.addr else answer.address;
                && selected == Some(addr)
                && pool == old(pool) + [ListAccounts, ReadState(addr), ReadStore(addr, selection)]
      ensures job.Forget? || job.StopObserving? ==>
                && pool == old(pool) + [ListAccounts] && waiting == old(waiting) - {job.addr}
                && selected == if old(selected) == Some(job.addr) then None else old(selected)
    {
      match job {
        case ListAccounts => LandListing(answer);
        case Create => LandNew(answer.address, false);
        case Import => LandNew(answer.address, answer.already);
        case Observe(addr) => LandNew(addr, answer.already);
        case Forget(addr) => LandGone(addr);
        case StopObserving(addr) => LandGone(addr);
        case Unlock(_) => ReloadAccounts();
        case EditLog(_, _) =>
          notice := NoNotice;
          ReloadAccounts();
        case _ =>
      }
    }

    /** The handlers of one reply. */
    method Handle(l: Landing)
      requires Consistent(1) && Asked()
      requires l.job.Publish? && l.reply.Answered? ==> l.job.target.Some?
      modifies this`selection, this`selected, this`waiting, this`notice, this`putUp, this`answered,
               this`forgotten, this`inFlight, this`busy, this`pool, this`asked
      ensures Consistent(1) && Asked() && LandedAs(l, old(selected), old(pool))
      ensures l.reply.Skipped? ==> pool == old(pool) && selected == old(selected) && notice == old(notice)
      ensures l.reply.Refused? && !l.job.ReadStore? && !l.job.Publish? ==>
                && pool == old(pool) && selected == old(selected)
                && notice == if l.job.StopObserving? || (l.job.EditLog? && l.job.loud) then OtherNotice else old(notice)
      ensures l.job.ReadStore? && !l.reply.Skipped? ==>
                pool == old(pool) + [ListAccounts] && selected == old(selected)
      ensures Counted(CountIn(l), old(answered), old(putUp), old(waiting))
    {
      if l.reply.Skipped? {
      } else if l.job.ReadStore? {
        LandRead(l.job.addr, l.reply);
      } else if l.job.Publish? {
        LandPublish(l.job.target, l.reply);
      } else if l.reply.Answered? {
        LandAnswer(l.job, l.reply.answer);
      } else {
        LandRefused(l.job);
      }
    }

    /** Land the oldest reply. The handlers come before the call is counted as over, so busy holds across a chain. */
    method LandOldest()
      requires Valid() && landing != []
      modifies this
      ensures Valid() && landing == old(landing)[1..] && listing == old(listing) && contextReady == old(contextReady)
      ensures LandedAs(old(landing)[0], old(selected), old(pool))
      ensures Counted(CountIn(old(landing)[0]), old(answered), old(putUp), old(waiting))
    {
      var l := landing[0];
      landing := landing[1..];
      Handle(l);
      inFlight := inFlight - 1;
      if inFlight == 0 {
        busy := false;
      }
    }

    /** Whatever calls a reply sets off, landing it brings the queue nearer empty. */
    method Land()
      requires Valid() && landing != []
      modifies this
      ensures Valid() && landing == old(landing)[1..] && listing == old(listing) && Below(Rank(), old(Rank()))
    {
      LandOldest();
      LandIsBelow(old(pool), old(landing), listing, old(selected), selection, contextReady);
    }

    // ---------- Running ----------

    /**
     * Run the oldest call on the core and post its reply. `reply` is what the core answers and
     * `accounts` what it would list after.
     */
    method RunCall(reply: Reply, accounts: seq<Address>)
      requires Valid() && pool != [] && !reply.Skipped?
      requires !ChangesListing(pool[0]) ==> accounts == listing
      requires pool[0].ListAccounts? && reply.Answered? ==> reply.answer.listing == accounts
      modifies this`pool, this`landing, this`listing
      ensures Valid() && pool == old(pool)[1..] && listing == accounts
      ensures |landing| == |old(landing)| + 1 && landing[..|old(landing)|] == old(landing)
      ensures
        var (job, posted) := (old(pool)[0], landing[|old(landing)|]);
        && posted.job == job
        && (posted.reply.Skipped? <==> job.ReadStore? && job.stamp != selection)
        && ((job.EditLog? || job.Publish?) && job.target.None? ==> posted.reply.Refused?)
        && (!(job.ReadStore? && job.stamp != selection) && !((job.EditLog? || job.Publish?) && job.target.None?) ==>
              posted.reply == reply)
      ensures Below(Rank(), old(Rank()))
    {
      var job := pool[0];
      var heard := Heard(job, selection, reply);
      RunIsBelow(pool, landing, selected, listing, accounts, heard);
      pool := pool[1..];
      landing := landing + [Landing(job, heard)];
      listing := accounts;
    }

    /**
     * With nothing asked by the person and no other process at the vault, whatever the core
     * answers and however the two threads take turns, the follow-up calls end, and then, and
     * only then, the backend is not busy.
     */
    method Drain()
      requires Valid()
      modifies this
      ensures Valid() && pool == [] && landing == [] && !busy
    {
      while pool != [] || landing != []
        invariant Valid()
        decreases Rank().changes, Rank().unsettled, Rank().astray, Rank().weight
      {
        var runs: bool := *;
        if pool != [] && (runs || landing == []) {
          var refused: bool := *;
          var answer: Answer := *;
          var accounts: seq<Address> := *;
          if !ChangesListing(pool[0]) {
            accounts := listing;
          }
          RunCall(if refused then Refused else Answered(answer.(listing := accounts)), accounts);
        } else {
          Land();
        }
      }
    }

    // ---------- What the person asks ----------

    method OnContextReady()
      requires Valid()
      modifies this
      ensures Valid() && contextReady && selected == old(selected)
      ensures pool == old(pool) + if selected.Some? then [ReadStore(selected.value, selection)] else []
    {
      contextReady := true;
      if selected.Some? {
        Refresh();
      }
    }

    method SelectAccount(addr: Option<Address>)
      requires Valid()
      modifies this
      ensures Valid() && selected == addr
      ensures pool == old(pool) +
                if addr == old(selected) then []
                else if addr.None? then [ListAccounts]
                else [ReadState(addr.value), ReadStore(addr.value, selection)]
      ensures addr != old(selected) && addr.Some? && Count(old(waiting), addr.value) > 0 ==>
                notice == AlreadyInStore(addr.value, Count(old(waiting), addr.value))
    {
      if addr == selected {
        return;
      }
      SetSelection(addr);
      ReloadState();
      Refresh();
    }

    /** The other buttons queue one call each. */
    method Ask(job: Job)
      requires Valid()
      modifies this`inFlight, this`busy, this`pool
      ensures Valid() && pool == old(pool) + [job]
    {
      Call(job);
    }
  }
}
