/** The store in memory: what it holds under each address, and the one rule it takes a log by. */
module MemoryStore {
  import opened Basics
  import opened Addresses
  import opened AccountLog
  import opened Codec
  import AccountDevice
  import DeviceTheorems
  import Protocol

  datatype SignedAccountLog = SignedAccountLog(signer: Address, payload: Bytes)

  type Contents = map<Address, SignedAccountLog>

  type Held = seq<(Address, SignedAccountLog)>

  /** A log is taken where nothing is held, and where its payload starts with the payload held. */
  predicate Takes(held: Contents, addr: Address, log: SignedAccountLog) {
    addr in held ==> held[addr].payload <= log.payload
  }

  function AfterPublish(held: Contents, addr: Address, log: SignedAccountLog): Contents {
    if Takes(held, addr, log) then held[addr := log] else held
  }

  /** No address is held twice. */
  predicate OneEach(held: Held) {
    forall i, j :: 0 <= i < j < |held| ==> held[i].0 != held[j].0
  }

  /** What the list stands for. */
  function ContentsOf(held: Held): Contents {
    if held == [] then map[] else ContentsOf(held[..|held| - 1])[held[|held| - 1].0 := held[|held| - 1].1]
  }

  lemma {:induction false} Listed(held: Held, addr: Address)
    ensures addr in ContentsOf(held) <==> exists i :: 0 <= i < |held| && held[i].0 == addr
  {
    if held != [] {
      var n := |held| - 1;
      Listed(held[..n], addr);
      assert held[n] in held;
      assert forall i :: 0 <= i < n ==> held[..n][i] == held[i];
    }
  }

  lemma {:induction false} ListedAt(held: Held, n: nat)
    requires OneEach(held) && n < |held|
    ensures held[n].0 in ContentsOf(held) && ContentsOf(held)[held[n].0] == held[n].1
  {
    if n < |held| - 1 {
      ListedAt(held[..|held| - 1], n);
    }
  }

  lemma {:induction false} Overwritten(held: Held, n: nat, log: SignedAccountLog)
    requires OneEach(held) && n < |held|
    ensures ContentsOf(held[n := (held[n].0, log)]) == ContentsOf(held)[held[n].0 := log]
  {
    var last, changed := |held| - 1, held[n := (held[n].0, log)];
    if n < last {
      Overwritten(held[..last], n, log);
      assert changed[..last] == held[..last][n := (held[n].0, log)];
    } else {
      assert changed[..last] == held[..last];
    }
  }

  class MemoryStore {
    var held: Held

    ghost predicate Valid()
      reads this
    {
      OneEach(held)
    }

    ghost function Contents(): Contents
      reads this
    {
      ContentsOf(held)
    }

    constructor ()
      ensures Valid() && Contents() == map[]
    {
      held := [];
    }

    /** Where `addr` stands in the list, if it is there. */
    method Position(addr: Address) returns (n: nat)
      requires Valid()
      ensures n <= |held|
      ensures n < |held| ==> held[n].0 == addr
      ensures n < |held| <==> addr in Contents()
    {
      n := 0;
      while n < |held| && held[n].0 != addr
        invariant n <= |held|
        invariant forall i :: 0 <= i < n ==> held[i].0 != addr
      {
        n := n + 1;
      }
      Listed(held, addr);
    }

    method Fetch(addr: Address) returns (log: Option<SignedAccountLog>)
      requires Valid()
      ensures log == if addr in Contents() then Some(Contents()[addr]) else None
    {
      var n := Position(addr);
      if n < |held| {
        ListedAt(held, n);
      }
      log := if n < |held| then Some(held[n].1) else None;
    }

    /** Replace the log of `addr` by an extension of it, or begin one, and touch no other address. */
    method Publish(addr: Address, log: SignedAccountLog) returns (taken: bool)
      requires Valid()
      modifies this
      ensures Valid()
      ensures taken <==> Takes(old(Contents()), addr, log)
      ensures Contents() == AfterPublish(old(Contents()), addr, log)
    {
      var n := Position(addr);
      if n < |held| {
        ListedAt(held, n);
        Overwritten(held, n, log);
        if !(held[n].1.payload <= log.payload) {
          return false;
        }
        held := held[n := (addr, log)];
      } else {
        Listed(held, addr);
        held := held + [(addr, log)];
        assert held[..n] == old(held);
      }
      taken := true;
    }
  }

  // ---------- What the rule keeps ----------

  datatype Write = Write(addr: Address, log: SignedAccountLog)

  function AfterAll(held: Contents, writes: seq<Write>): Contents {
    if writes == [] then held
    else
      var n := |writes| - 1;
      AfterPublish(AfterAll(held, writes[..n]), writes[n].addr, writes[n].log)
  }

  /** Whatever is published, by anyone, a payload once held is only ever extended. */
  lemma {:induction false} PayloadsOnlyGrow(held: Contents, writes: seq<Write>, addr: Address)
    requires addr in held
    ensures addr in AfterAll(held, writes) && held[addr].payload <= AfterAll(held, writes)[addr].payload
  {
    if writes != [] {
      PayloadsOnlyGrow(held, writes[..|writes| - 1], addr);
    }
  }

  /** Whether the store holds exactly `log` under `addr`, a log of no entries being none at all. */
  predicate HoldsLog(held: Contents, addr: Address, log: Log) {
    if log == [] then addr !in held
    else EncodeError(log).None? && addr in held && held[addr] == SignedAccountLog(addr, Encode(log).value)
  }

  /** The byte test on payloads is the entry test the protocol's store applies to logs. */
  lemma PublishIsStored(held: Contents, addr: Address, log: Log, candidate: Log)
    requires HoldsLog(held, addr, log) && candidate != [] && EncodeError(candidate).None?
    ensures
      var signed := SignedAccountLog(addr, Encode(candidate).value);
      && (Takes(held, addr, signed) <==> log <= candidate)
      && HoldsLog(AfterPublish(held, addr, signed), addr, Protocol.Stored(log, candidate))
      && forall other :: other != addr ==>
           (other in AfterPublish(held, addr, signed) <==> other in held)
           && (other in held ==> AfterPublish(held, addr, signed)[other] == held[other])
  {
    if log != [] {
      PayloadPrefix(log, candidate);
    }
  }

  /** What a fetch of a held log comes to, once checked, is the log the protocol's store serves. */
  lemma FetchIsServed(held: Contents, addr: Address, log: Log)
    requires HoldsLog(held, addr, log)
    ensures
      var artifact :=
        if addr in held then AccountDevice.SignedLog(held[addr].signer, held[addr].payload)
        else AccountDevice.NoLog;
      AccountDevice.Checked(addr, artifact) == DeviceTheorems.Serve(log)
  {
    if log != [] {
      DeviceTheorems.ServedIsChecked(addr, log);
    }
  }
}
