/** A directory with one key file for each account that can be written. */
module Vault {
  import opened Basics
  import opened Addresses
  import opened VaultNames

  /** A signing key, and the address it derives. */
  datatype SigningKey = SigningKey(secret: nat, address: Address)

  /** What a file in the directory holds. Only the right password opens a keystore. */
  datatype File = OpenDocument(key: SigningKey) | Keystore(key: SigningKey, password: string) | Foreign

  datatype VaultError =
    | NoAccount
    | AccountExists(addr: Address)
    | EmptyPassword
    | PasswordRequired
    | PasswordNotRequired
    | WrongPassword
    | Corrupt
    | Io

  type Directory = map<string, File>

  predicate Holds(files: Directory, held: StoredAccount) {
    PathOf(held.addr, held.protected) in files
  }

  /** Whether the key of `addr` is held, with or without a password. */
  predicate HoldsKey(files: Directory, addr: Address) {
    Holds(files, StoredAccount(addr, true)) || Holds(files, StoredAccount(addr, false))
  }

  /** Of the two names an address can be filed under, one at most is taken. */
  ghost predicate OneNameEach(files: Directory) {
    forall addr: Address :: !(PathOf(addr, true) in files && PathOf(addr, false) in files)
  }

  /** Why `addr` is not opened by `password`, if it is not. A file whose key derives another address is corrupt. */
  function OpenError(files: Directory, addr: Address, password: Option<string>): Option<VaultError> {
    if Holds(files, StoredAccount(addr, true)) then
      match (files[PathOf(addr, true)], password)
      case (_, None) => Some(PasswordRequired)
      case (Keystore(key, sealed), Some(given)) =>
        if given != sealed then Some(WrongPassword) else if key.address != addr then Some(Corrupt) else None
      case (_, Some(_)) => Some(Corrupt)
    else if Holds(files, StoredAccount(addr, false)) then
      match (files[PathOf(addr, false)], password)
      case (_, Some(_)) => Some(PasswordNotRequired)
      case (OpenDocument(key), None) => if key.address != addr then Some(Corrupt) else None
      case (_, None) => Some(Corrupt)
    else Some(NoAccount)
  }

  /** Why the key of `addr` is not taken in, if it is not. */
  ghost function CreateError(files: Directory, addr: Address, password: Option<string>, disk: bool)
    : Option<VaultError>
  {
    if password == Some("") then Some(EmptyPassword)
    else if !disk then Some(Io)
    else if !OneNameEach(files) then Some(Corrupt)
    else if HoldsKey(files, addr) then
      Some(AccountExists(addr))
    else None
  }

  /** Why `addr` is not dropped, if it is not. */
  ghost function ForgetError(files: Directory, addr: Address, disk: bool): Option<VaultError> {
    if !OneNameEach(files) then Some(Corrupt)
    else if !HoldsKey(files, addr) then
      Some(NoAccount)
    else if !disk then Some(Io)
    else None
  }

  /**
   * What opens: a sealed file with its own password, an open one with none, and in either only
   * a key that derives the address. Every refusal has its one reason.
   */
  lemma WhatOpens(files: Directory, addr: Address, password: Option<string>)
    requires OneNameEach(files)
    ensures
      var (error, sealed, open) := (OpenError(files, addr, password), PathOf(addr, true), PathOf(addr, false));
      && (error.None? && password.Some? <==>
            && password.Some? && sealed in files && files[sealed].Keystore?
            && files[sealed].password == password.value && files[sealed].key.address == addr)
      && (error.None? && password.None? <==>
            password.None? && open in files && files[open].OpenDocument? && files[open].key.address == addr)
      && (error == Some(NoAccount) <==> sealed !in files && open !in files)
      && (error == Some(PasswordRequired) <==> sealed in files && password.None?)
      && (error == Some(PasswordNotRequired) <==> open in files && password.Some?)
      && (error == Some(WrongPassword) <==>
            && password.Some? && sealed in files && files[sealed].Keystore?
            && files[sealed].password != password.value)
      && (error.Some? ==>
            error.value in {NoAccount, PasswordRequired, PasswordNotRequired, WrongPassword, Corrupt})
  {
    assert !(PathOf(addr, true) in files && PathOf(addr, false) in files);
  }

  /** A key is taken in under any password but the empty one, where the disk obeys and the address is free. */
  lemma WhatIsTakenIn(files: Directory, addr: Address, password: Option<string>, disk: bool)
    ensures
      var error := CreateError(files, addr, password, disk);
      var free := PathOf(addr, true) !in files && PathOf(addr, false) !in files;
      && (error.None? <==> password != Some("") && disk && OneNameEach(files) && free)
      && (error == Some(EmptyPassword) <==> password == Some(""))
      && (error == Some(Io) <==> password != Some("") && !disk)
      && (error == Some(AccountExists(addr)) <==> password != Some("") && disk && OneNameEach(files) && !free)
      && (error == Some(Corrupt) <==> password != Some("") && disk && !OneNameEach(files))
  {
  }

  /** A key is dropped where it is held and the disk obeys. */
  lemma WhatIsDropped(files: Directory, addr: Address, disk: bool)
    ensures
      var error := ForgetError(files, addr, disk);
      var free := PathOf(addr, true) !in files && PathOf(addr, false) !in files;
      && (error.None? <==> OneNameEach(files) && !free && disk)
      && (error == Some(NoAccount) <==> OneNameEach(files) && free)
      && (error == Some(Io) <==> OneNameEach(files) && !free && !disk)
      && (error == Some(Corrupt) <==> !OneNameEach(files))
  {
  }

  function AddressText(held: StoredAccount): string {
    held.addr
  }

  /** The listing of a directory: every account in it once, in address order. */
  ghost predicate IsListing(files: Directory, list: seq<StoredAccount>) {
    && SortedBy(list, AddressText)
    && (forall i, j :: 0 <= i < j < |list| ==> list[i].addr != list[j].addr)
    && forall held :: held in list <==> Holds(files, held)
  }

  class Vault {
    var files: Directory

    constructor ()
      ensures files == map[]
    {
      files := map[];
    }

    /** The listing, taken from the names in the directory without opening a file. */
    method Accounts() returns (r: Result<seq<StoredAccount>, VaultError>)
      ensures r.Ok? <==> OneNameEach(files)
      ensures r.Ok? ==> IsListing(files, r.value)
      ensures r.Err? ==> r.error == Corrupt
    {
      var rest, held: seq<StoredAccount> := files.Keys, [];
      while rest != {}
        invariant rest <= files.Keys
        invariant forall i, j :: 0 <= i < j < |held| ==> held[i].addr != held[j].addr
        invariant forall account: StoredAccount :: account in held <==>
                    PathOf(account.addr, account.protected) in files.Keys - rest
        decreases rest
      {
        var name :| name in rest;
        var parsed := ParseName(name);
        forall account: StoredAccount
          ensures name == PathOf(account.addr, account.protected) <==> parsed == Some(account)
        {
          ReaderInvertsWriter(name, account);
        }
        if parsed.Some? {
          var addr := parsed.value.addr;
          if i :| 0 <= i < |held| && held[i].addr == addr {
            TwoNames(files, rest, held[i], parsed.value);
            return Err(Corrupt);
          }
          held := held + [parsed.value];
        }
        rest := rest - {name};
      }
      assert OneNameEach(files) by {
        forall addr: Address
          ensures !(PathOf(addr, true) in files && PathOf(addr, false) in files)
        {
          assert StoredAccount(addr, true) in held <==> PathOf(addr, true) in files;
          assert StoredAccount(addr, false) in held <==> PathOf(addr, false) in files;
        }
      }
      var sorted := SortByKey(held, AddressText);
      SortedListing(files, held, sorted);
      r := Ok(sorted);
    }

    /** The key of `addr`, once it is proved to derive that address. */
    method Open(addr: Address, password: Option<string>) returns (r: Result<SigningKey, VaultError>)
      ensures !OneNameEach(files) ==> r == Err(Corrupt)
      ensures OneNameEach(files) ==>
                OpenError(files, addr, password) == match r case Ok(_) => None case Err(error) => Some(error)
      ensures r.Ok? ==> r.value.address == addr
      ensures r.Ok? ==>
                var name := PathOf(addr, password.Some?);
                name in files && !files[name].Foreign? && r.value == files[name].key
    {
      var listed := Accounts();
      if listed.Err? {
        return Err(listed.error);
      }
      var held := Find(listed.value, addr);
      if held.None? {
        return Err(NoAccount);
      }
      var file := files[PathOf(addr, held.value.protected)];
      if held.value.protected && password.None? {
        return Err(PasswordRequired);
      }
      if !held.value.protected && password.Some? {
        return Err(PasswordNotRequired);
      }
      if held.value.protected {
        if !file.Keystore? {
          return Err(Corrupt);
        }
        if file.password != password.value {
          return Err(WrongPassword);
        }
      } else if !file.OpenDocument? {
        return Err(Corrupt);
      }
      if file.key.address != addr {
        return Err(Corrupt);
      }
      r := Ok(file.key);
    }

    /**
     * File `key` under its address, unless that address is taken by any key at all. `disk`
     * says whether the file system does what it is asked.
     */
    method Create(key: SigningKey, password: Option<string>, disk: bool) returns (r: Result<Address, VaultError>)
      modifies this
      ensures r == match CreateError(old(files), key.address, password, disk)
                   case Some(error) => Err(error)
                   case None => Ok(key.address)
      ensures r.Err? ==> files == old(files)
      ensures r.Ok? ==>
                && OneNameEach(files)
                && files.Keys == old(files).Keys + {PathOf(key.address, password.Some?)}
                && (forall name :: name in old(files) ==> files[name] == old(files)[name])
                && OpenError(files, key.address, password).None?
                && files[PathOf(key.address, password.Some?)].key == key
    {
      if password == Some("") {
        return Err(EmptyPassword);
      }
      var document := match password
        case Some(given) => Keystore(key, given)
        case None => OpenDocument(key);
      if !disk {
        return Err(Io);
      }
      var listed := Accounts();
      if listed.Err? {
        return Err(listed.error);
      }
      var held := Find(listed.value, key.address);
      if held.Some? {
        return Err(AccountExists(key.address));
      }
      assert !HoldsKey(files, key.address);
      OneMoreName(files, key.address, password.Some?, document);
      files := files[PathOf(key.address, password.Some?) := document];
      r := Ok(key.address);
    }

    /** Drop `addr`. */
    method Forget(addr: Address, disk: bool) returns (r: Result<(), VaultError>)
      modifies this
      ensures r == match ForgetError(old(files), addr, disk)
                   case Some(error) => Err(error)
                   case None => Ok(())
      ensures OneNameEach(old(files)) ==> OneNameEach(files)
      ensures files == if r.Ok? then old(files) - {PathOf(addr, true), PathOf(addr, false)} else old(files)
    {
      var listed := Accounts();
      if listed.Err? {
        return Err(listed.error);
      }
      var held := Find(listed.value, addr);
      if held.None? {
        return Err(NoAccount);
      }
      if !disk {
        return Err(Io);
      }
      files := files - {PathOf(addr, held.value.protected)};
      r := Ok(());
    }
  }

  /** `into_iter().find` on a listing. */
  method Find(list: seq<StoredAccount>, addr: Address) returns (r: Option<StoredAccount>)
    ensures r.Some? ==> r.value in list && r.value.addr == addr
    ensures r.None? ==> forall held :: held in list ==> held.addr != addr
  {
    for i := 0 to |list|
      invariant forall j :: 0 <= j < i ==> list[j].addr != addr
    {
      if list[i].addr == addr {
        return Some(list[i]);
      }
    }
    r := None;
  }

  /** The two names of one address differ, and neither is another address's. */
  lemma NamesDiffer(addr: Address)
    ensures forall other: Address, p, q :: PathOf(other, p) == PathOf(addr, q) ==> other == addr && p == q
  {
    forall other: Address, p, q | PathOf(other, p) == PathOf(addr, q)
      ensures other == addr && p == q
    {
      ReaderInvertsWriter(PathOf(addr, q), StoredAccount(addr, q));
      ReaderInvertsWriter(PathOf(addr, q), StoredAccount(other, p));
    }
  }

  lemma OneMoreName(files: Directory, addr: Address, protected: bool, document: File)
    requires OneNameEach(files)
    requires PathOf(addr, true) !in files && PathOf(addr, false) !in files
    ensures OneNameEach(files[PathOf(addr, protected) := document])
  {
    NamesDiffer(addr);
  }

  lemma TwoNames(files: Directory, rest: set<string>, seen: StoredAccount, now: StoredAccount)
    requires seen.addr == now.addr && rest <= files.Keys
    requires PathOf(seen.addr, seen.protected) in files.Keys - rest && PathOf(now.addr, now.protected) in rest
    ensures !OneNameEach(files)
  {
    assert seen.protected != now.protected;
    assert PathOf(seen.addr, true) in files && PathOf(seen.addr, false) in files;
  }

  lemma SortedListing(files: Directory, held: seq<StoredAccount>, sorted: seq<StoredAccount>)
    requires forall i, j :: 0 <= i < j < |held| ==> held[i].addr != held[j].addr
    requires forall account :: account in held <==> Holds(files, account)
    requires SortedBy(sorted, AddressText) && multiset(sorted) == multiset(held) && OneNameEach(files)
    ensures IsListing(files, sorted)
  {
    forall account: StoredAccount
      ensures account in sorted <==> account in held
    {
      assert account in sorted <==> account in multiset(sorted);
    }
    forall i, j | 0 <= i < j < |sorted|
      ensures sorted[i].addr != sorted[j].addr
    {
      OnceInListing(held, sorted[i]);
      assert sorted[i] in sorted && sorted[j] in sorted;
      if sorted[i] == sorted[j] {
        CountedTwice(sorted, i, j);
      }
    }
  }

  lemma {:induction false} OnceInListing(held: seq<StoredAccount>, account: StoredAccount)
    requires forall i, j :: 0 <= i < j < |held| ==> held[i].addr != held[j].addr
    ensures multiset(held)[account] <= 1
  {
    if held != [] {
      var n := |held| - 1;
      OnceInListing(held[..n], account);
      assert held == held[..n] + [held[n]];
    }
  }
}
