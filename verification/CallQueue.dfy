/** The calls the view queues on the core, what they answer, and how far the queue is from empty. */
module CallQueue {
  import opened Basics
  import opened Addresses

  /** A call. One with no address was made with no account selected, and is refused. */
  datatype Job =
    | ListAccounts
    | ReadState(addr: Address)
    | ReadStore(addr: Address, stamp: nat)
    | Create
    | Import
    | Observe(addr: Address)
    | Forget(addr: Address)
    | StopObserving(addr: Address)
    | Export(addr: Address)
    | Unlock(addr: Address)
    | EditLog(target: Option<Address>, loud: bool)
    | Publish(target: Option<Address>)

  /** What an answer can carry; each call reads its own part of it. */
  datatype Answer = Answer(
    listing: seq<Address>,
    address: Address,
    already: bool,
    firstNew: Option<nat>,
    dropped: nat)

  datatype Reply = Skipped | Refused | Answered(answer: Answer)

  datatype Landing = Landing(job: Job, reply: Reply)

  /** The calls that can change which accounts there are. Only the person makes one. */
  predicate ChangesListing(job: Job) {
    job.Create? || job.Import? || job.Observe? || job.Forget? || job.StopObserving?
  }

  function Changes(pool: seq<Job>): nat {
    if pool == [] then 0 else (if ChangesListing(pool[0]) then 1 else 0) + Changes(pool[1..])
  }

  /** A reply that can move the selection off the accounts there are: a change's, or a listing since outdated. */
  predicate Unsettles(l: Landing, listing: seq<Address>) {
    || ChangesListing(l.job)
    || (l.job.ListAccounts? && l.reply.Answered? && l.reply.answer.listing != listing)
  }

  function Unsettled(landing: seq<Landing>, listing: seq<Address>): nat {
    if landing == [] then 0
    else (if Unsettles(landing[0], listing) then 1 else 0) + Unsettled(landing[1..], listing)
  }

  /** Whether the next listing moves the selection: there are accounts, and none of them is selected. */
  function Astray(selected: Option<Address>, listing: seq<Address>): nat {
    if listing != [] && (selected.None? || selected.value !in listing) then 1 else 0
  }

  /** More than all the calls a reply to `job` sets off, while it moves no selection. */
  function Weight(job: Job): nat {
    match job
    case ReadState(_) | Export(_) => 1
    case ListAccounts => 3
    case ReadStore(_, _) | Unlock(_) | EditLog(_, _) => 5
    case _ => 7
  }

  /** A queued call still has to run and to land. */
  function PoolWeight(pool: seq<Job>): nat {
    if pool == [] then 0 else Weight(pool[0]) + 1 + PoolWeight(pool[1..])
  }

  function LandingWeight(landing: seq<Landing>): nat {
    if landing == [] then 0 else Weight(landing[0].job) + LandingWeight(landing[1..])
  }

  datatype Rank = Rank(changes: nat, unsettled: nat, astray: nat, weight: nat)

  function RankOf(pool: seq<Job>, landing: seq<Landing>, selected: Option<Address>, listing: seq<Address>): Rank {
    Rank(Changes(pool), Unsettled(landing, listing), Astray(selected, listing),
         PoolWeight(pool) + LandingWeight(landing))
  }

  predicate Below(a: Rank, b: Rank) {
    || a.changes < b.changes
    || (a.changes == b.changes &&
        (|| a.unsettled < b.unsettled
         || (a.unsettled == b.unsettled &&
             (a.astray < b.astray || (a.astray == b.astray && a.weight < b.weight)))))
  }

  lemma {:induction false} Queued(pool: seq<Job>, more: seq<Job>)
    ensures Changes(pool + more) == Changes(pool) + Changes(more)
    ensures PoolWeight(pool + more) == PoolWeight(pool) + PoolWeight(more)
  {
    if pool == [] {
      assert pool + more == more;
    } else {
      Queued(pool[1..], more);
      assert (pool + more)[1..] == pool[1..] + more;
    }
  }

  lemma {:induction false} Posted(landing: seq<Landing>, last: Landing, listing: seq<Address>)
    ensures Unsettled(landing + [last], listing) ==
              Unsettled(landing, listing) + if Unsettles(last, listing) then 1 else 0
    ensures LandingWeight(landing + [last]) == LandingWeight(landing) + Weight(last.job)
  {
    if landing == [] {
      assert landing + [last] == [last];
    } else {
      Posted(landing[1..], last, listing);
      assert (landing + [last])[1..] == landing[1..] + [last];
    }
  }

  /** Running a call brings the queue nearer empty, whatever it does to the accounts it may change. */
  lemma RunIsBelow(pool: seq<Job>, landing: seq<Landing>, selected: Option<Address>,
                   listing: seq<Address>, after: seq<Address>, reply: Reply)
    requires pool != [] && (ChangesListing(pool[0]) || after == listing)
    requires pool[0].ListAccounts? && reply.Answered? ==> reply.answer.listing == after
    ensures Below(RankOf(pool[1..], landing + [Landing(pool[0], reply)], selected, after),
                  RankOf(pool, landing, selected, listing))
  {
    Posted(landing, Landing(pool[0], reply), after);
  }

  // ---------- What a reply does ----------

  /**
   * What running a call posts. A read is skipped once the selection it was stamped with is over, and a
   * call made with no account selected is refused.
   */
  function Heard(job: Job, stamp: nat, reply: Reply): Reply {
    if job.ReadStore? && job.stamp != stamp then Skipped
    else if (job.Publish? || job.EditLog?) && job.target.None? then Refused
    else reply
  }

  /** The account on screen once a reply landed. */
  function SelectedAfter(l: Landing, before: Option<Address>): Option<Address> {
    if !l.reply.Answered? then before
    else
      match l.job
      case ListAccounts =>
        var list := l.reply.answer.listing;
        if list == [] then None
        else if before.Some? && before.value in list then before
        else Some(list[0])
      case Create | Import => Some(l.reply.answer.address)
      case Observe(addr) => Some(addr)
      case Forget(addr) => if before == Some(addr) then None else before
      case StopObserving(addr) => if before == Some(addr) then None else before
      case _ => before
  }

  /** The read a refresh queues: the store's, or the listing where no account is on screen. */
  function RefreshOf(selected: Option<Address>, stamp: nat): Job {
    match selected
    case None => ListAccounts
    case Some(addr) => ReadStore(addr, stamp)
  }

  /** The calls a reply sets off. `stamp` is the selection's once it landed. */
  function FollowUps(l: Landing, before: Option<Address>, stamp: nat, ready: bool): seq<Job> {
    var after := SelectedAfter(l, before);
    match l.reply
    case Skipped => []
    case Refused =>
      (match l.job
       case ReadStore(_, _) => [ListAccounts]
       case Publish(target) => [if target == before then RefreshOf(before, stamp) else ListAccounts]
       case _ => [])
    case Answered(answer) =>
      match l.job
      case ListAccounts =>
        if after.None? then []
        else [ReadState(after.value)] + if after != before && ready then [ReadStore(after.value, stamp)] else []
      case Create | Import | Observe(_) =>
        [ListAccounts, ReadState(after.value), ReadStore(after.value, stamp)]
      case ReadState(_) | Export(_) => []
      case _ => [ListAccounts]
  }

  lemma {:induction false} NoneChange(jobs: seq<Job>)
    requires forall i :: 0 <= i < |jobs| ==> !ChangesListing(jobs[i])
    ensures Changes(jobs) == 0
  {
    if jobs != [] {
      NoneChange(jobs[1..]);
    }
  }

  lemma WeightOfTwo(job: Job, other: Job)
    ensures PoolWeight([job]) == Weight(job) + 1
    ensures PoolWeight([job, other]) == Weight(job) + Weight(other) + 2
  {
    assert [job][1..] == [];
    assert [job, other][1..] == [other] && [other][1..] == [];
  }

  /**
   * What follows a reply changes no account and, unless the reply unsettles the selection
   * or seats it, weighs less than the reply did.
   */
  lemma FollowUpsAreLess(l: Landing, listing: seq<Address>, before: Option<Address>, stamp: nat, ready: bool)
    ensures
      var (after, more) := (SelectedAfter(l, before), FollowUps(l, before, stamp, ready));
      && Changes(more) == 0
      && (|| Unsettles(l, listing)
          || Astray(after, listing) < Astray(before, listing)
          || (Astray(after, listing) == Astray(before, listing) && PoolWeight(more) < Weight(l.job)))
  {
    var more := FollowUps(l, before, stamp, ready);
    NoneChange(more);
    if |more| == 1 {
      assert more == [more[0]];
      WeightOfTwo(more[0], more[0]);
    }
  }

  /** Landing a reply brings the queue nearer empty too, whatever calls follow it. */
  lemma LandIsBelow(pool: seq<Job>, landing: seq<Landing>, listing: seq<Address>, before: Option<Address>,
                    stamp: nat, ready: bool)
    requires landing != []
    ensures
      var l := landing[0];
      Below(RankOf(pool + FollowUps(l, before, stamp, ready), landing[1..], SelectedAfter(l, before), listing),
            RankOf(pool, landing, before, listing))
  {
    FollowUpsAreLess(landing[0], listing, before, stamp, ready);
    Queued(pool, FollowUps(landing[0], before, stamp, ready));
  }
}
