/** Both groups of accounts as one list: those that can be written, then those only read. */
module Roster {
  import opened Basics
  import opened Addresses
  import opened AccountDevice
  import opened VaultNames
  import opened Vault
  import Observed

  /** A row of the list. */
  datatype Summary = Summary(
    address: Address,
    managed: bool,
    sealed: bool,
    locked: bool,
    resolved: bool,
    displayName: Option<Bytes>,
    pending: nat,
    problem: Option<ReadProblem>)

  /** Whether `addr` is the address of a row. */
  predicate Rowed(rows: seq<Summary>, addr: Address) {
    exists i :: 0 <= i < |rows| && rows[i].address == addr
  }

  /** Each account in either group on one row, the managed ones first, each group in address order. */
  ghost predicate IsRoster(rows: seq<Summary>, files: Directory, list: Observed.Contents) {
    && InOrder(rows)
    && (forall i :: 0 <= i < |rows| ==> (rows[i].managed <==> HoldsKey(files, rows[i].address)))
    && forall addr: Address :: Rowed(rows, addr) <==> HoldsKey(files, addr) || addr in Observed.Listed(list)
  }

  predicate Before(a: Summary, b: Summary) {
    && a.address != b.address
    && (b.managed ==> a.managed)
    && (a.managed == b.managed ==> AtMost(a.address, b.address))
  }

  predicate InOrder(rows: seq<Summary>) {
    forall i, j :: 0 <= i < j < |rows| ==> Before(rows[i], rows[j])
  }

  lemma ListedAs(files: Directory, held: seq<StoredAccount>, i: nat)
    requires IsListing(files, held) && OneNameEach(files) && i < |held|
    ensures HoldsKey(files, held[i].addr)
    ensures held[i].protected <==> PathOf(held[i].addr, true) in files
  {
    assert held[i] in held;
  }

  lemma HeldIsListed(files: Directory, held: seq<StoredAccount>, addr: Address)
    requires IsListing(files, held)
    ensures HoldsKey(files, addr) <==> exists i :: 0 <= i < |held| && held[i].addr == addr
  {
    assert StoredAccount(addr, true) in held <==> PathOf(addr, true) in files;
    assert StoredAccount(addr, false) in held <==> PathOf(addr, false) in files;
    if i :| 0 <= i < |held| && held[i].addr == addr {
      assert held[i] in held;
    }
  }

  /** The observed addresses that are not held. One in both groups has its row among the held. */
  method Unheld(held: seq<StoredAccount>, list: seq<Address>) returns (unheld: seq<Address>)
    requires Ascending(list)
    ensures Ascending(unheld)
    ensures forall addr :: addr in unheld <==>
              addr in list && forall i :: 0 <= i < |held| ==> held[i].addr != addr
  {
    unheld := [];
    for i := 0 to |list|
      invariant Ascending(unheld)
      invariant forall addr :: addr in unheld <==>
                  addr in list[..i] && forall i :: 0 <= i < |held| ==> held[i].addr != addr
    {
      var found := Find(held, list[i]);
      assert list[..i + 1] == list[..i] + [list[i]];
      if found.None? {
        forall k | 0 <= k < |unheld|
          ensures AtMost(unheld[k], list[i]) && unheld[k] != list[i]
        {
          assert unheld[k] in list[..i];
        }
        unheld := unheld + [list[i]];
      }
    }
    assert list[..|list|] == list;
  }

  predicate RowsOf(rows: seq<Summary>, addresses: seq<Address>, managed: bool) {
    && |rows| == |addresses|
    && forall i :: 0 <= i < |rows| ==> rows[i].managed == managed && rows[i].address == addresses[i]
  }

  lemma RosterInOrder(held: seq<StoredAccount>, unheld: seq<Address>, first: seq<Summary>, others: seq<Summary>,
                      files: Directory)
    requires OneNameEach(files) && IsListing(files, held)
    requires |first| == |held| && forall i :: 0 <= i < |first| ==> first[i].managed && first[i].address == held[i].addr
    requires Ascending(unheld) && RowsOf(others, unheld, false)
    requires forall addr :: addr in unheld ==> forall i :: 0 <= i < |held| ==> held[i].addr != addr
    ensures InOrder(first + others)
  {
    forall i, j | 0 <= i < j < |first|
      ensures Before(first[i], first[j])
    {
      assert AtMost(AddressText(held[i]), AddressText(held[j]));
    }
    forall i, j | 0 <= i < j < |others|
      ensures Before(others[i], others[j])
    {
    }
    forall i, j | 0 <= i < |first| && 0 <= j < |others|
      ensures Before(first[i], others[j])
    {
      assert unheld[j] in unheld;
    }
  }

  lemma RosterOf(held: seq<StoredAccount>, unheld: seq<Address>, first: seq<Summary>, others: seq<Summary>,
                 files: Directory, list: Observed.Contents)
    requires OneNameEach(files) && IsListing(files, held)
    requires |first| == |held| && forall i :: 0 <= i < |first| ==> first[i].managed && first[i].address == held[i].addr
    requires Ascending(unheld) && RowsOf(others, unheld, false)
    requires forall addr :: addr in unheld <==>
               addr in Observed.Listed(list) && forall i :: 0 <= i < |held| ==> held[i].addr != addr
    ensures IsRoster(first + others, files, list)
  {
    var rows := first + others;
    RosterInOrder(held, unheld, first, others, files);
    forall i | 0 <= i < |rows|
      ensures rows[i].managed <==> HoldsKey(files, rows[i].address)
    {
      HeldIsListed(files, held, rows[i].address);
      if i < |first| {
        assert rows[i].address == held[i].addr;
      } else {
        assert unheld[i - |first|] in unheld;
      }
    }
    forall addr: Address
      ensures Rowed(rows, addr) <==> HoldsKey(files, addr) || addr in Observed.Listed(list)
    {
      RowedWhere(held, unheld, first, others, addr);
      HeldIsListed(files, held, addr);
    }
  }

  lemma RowedWhere(held: seq<StoredAccount>, unheld: seq<Address>, first: seq<Summary>, others: seq<Summary>,
                   addr: Address)
    requires |first| == |held| && forall i :: 0 <= i < |first| ==> first[i].address == held[i].addr
    requires RowsOf(others, unheld, false)
    ensures Rowed(first + others, addr) <==>
              addr in unheld || exists i :: 0 <= i < |held| && held[i].addr == addr
  {
    var rows := first + others;
    if i :| 0 <= i < |held| && held[i].addr == addr {
      assert rows[i].address == addr;
    }
    if i :| 0 <= i < |unheld| && unheld[i] == addr {
      assert rows[|first| + i].address == addr;
    }
    if i :| 0 <= i < |rows| && rows[i].address == addr {
      assert i < |first| ==> held[i].addr == addr;
      assert i >= |first| ==> unheld[i - |first|] == addr;
    }
  }
}
