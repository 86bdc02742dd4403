/** The accounts read only, their keys being elsewhere: one document, replaced as a whole. */
module Observed {
  import opened Basics
  import opened Addresses

  const VERSION := 1

  /** What the list's file holds. */
  datatype Contents = Missing | Unparsed | Document(version: nat, addresses: seq<string>)

  datatype ObservedError = NotAList | Io

  predicate AllAddresses(addresses: seq<string>) {
    forall i :: 0 <= i < |addresses| ==> IsAddress(addresses[i])
  }

  /** A file this app wrote, or none. */
  predicate Readable(file: Contents) {
    file.Missing? || (file.Document? && file.version == VERSION && AllAddresses(file.addresses))
  }

  /** The set the document stands for. */
  function Listed(file: Contents): set<string> {
    if file.Document? then set s | s in file.addresses else {}
  }

  class ObservedAccounts {
    var file: Contents

    constructor ()
      ensures file == Missing
    {
      file := Missing;
    }

    /** The set the document stands for, strictly ordered. With no file it is empty. */
    method List() returns (r: Result<seq<Address>, ObservedError>)
      ensures r.Ok? <==> Readable(file)
      ensures r.Ok? <==>
                || file.Missing?
                || (file.Document? && file.version == 1 && forall s :: s in file.addresses ==> IsAddress(s))
      ensures r.Ok? ==> Ascending(r.value) && forall s :: s in r.value <==> s in Listed(file)
      ensures r.Ok? ==> forall s :: s in r.value <==> file.Document? && s in file.addresses
      ensures r.Err? ==> r.error == NotAList
    {
      if file.Missing? {
        return Ok([]);
      }
      if file.Unparsed? || file.version != VERSION {
        return Err(NotAList);
      }
      for i := 0 to |file.addresses|
        invariant AllAddresses(file.addresses[..i])
      {
        if Parse(file.addresses[i]).None? {
          return Err(NotAList);
        }
        assert file.addresses[..i + 1] == file.addresses[..i] + [file.addresses[i]];
      }
      assert file.addresses[..|file.addresses|] == file.addresses;
      var sorted := Sort(file.addresses);
      var addresses := Dedup(sorted);
      forall s
        ensures s in addresses <==> s in file.addresses
      {
        assert s in sorted <==> s in multiset(sorted);
      }
      forall i | 0 <= i < |addresses|
        ensures IsAddress(addresses[i])
      {
        assert addresses[i] in file.addresses;
      }
      r := Ok(addresses);
    }

    /** Add `addr` to the set, and say whether that changed it. */
    method Add(addr: Address, disk: bool) returns (r: Result<bool, ObservedError>)
      modifies this
      ensures r ==
                if !Readable(old(file)) then Err(NotAList)
                else if addr in Listed(old(file)) then Ok(false)
                else if disk then Ok(true)
                else Err(Io)
      ensures r != Ok(true) ==> file == old(file)
      ensures r == Ok(true) ==> Readable(file) && Listed(file) == Listed(old(file)) + {addr}
    {
      var list := List();
      if list.Err? {
        return Err(list.error);
      }
      if addr in list.value {
        return Ok(false);
      }
      if !disk {
        return Err(Io);
      }
      Write(list.value + [addr]);
      r := Ok(true);
    }

    /** Take `addr` out of the set, and say whether that changed it. */
    method Remove(addr: Address, disk: bool) returns (r: Result<bool, ObservedError>)
      modifies this
      ensures r ==
                if !Readable(old(file)) then Err(NotAList)
                else if addr !in Listed(old(file)) then Ok(false)
                else if disk then Ok(true)
                else Err(Io)
      ensures r != Ok(true) ==> file == old(file)
      ensures r == Ok(true) ==> Readable(file) && Listed(file) == Listed(old(file)) - {addr}
    {
      var list := List();
      if list.Err? {
        return Err(list.error);
      }
      var observed := list.value;
      var kept: seq<Address> := [];
      for i := 0 to |observed|
        invariant |kept| <= i
        invariant forall s :: s in kept <==> s in observed[..i] && s != addr
        invariant |kept| == i <==> addr !in observed[..i]
      {
        assert observed[..i + 1] == observed[..i] + [observed[i]];
        if observed[i] != addr {
          kept := kept + [observed[i]];
        }
      }
      assert observed[..|observed|] == observed;
      if |kept| == |observed| {
        return Ok(false);
      }
      if !disk {
        return Err(Io);
      }
      Write(kept);
      r := Ok(true);
    }

    /** The whole list, sorted, in place of the one before. */
    method Write(observed: seq<Address>)
      modifies this
      ensures Readable(file) && file.Document? && Sorted(file.addresses)
      ensures forall s :: s in Listed(file) <==> s in observed
    {
      var addresses := Sort(observed);
      forall s
        ensures s in addresses <==> s in observed
      {
        assert s in addresses <==> s in multiset(addresses);
      }
      forall i | 0 <= i < |addresses|
        ensures IsAddress(addresses[i])
      {
        assert addresses[i] in observed;
      }
      file := Document(VERSION, addresses);
    }
  }
}
