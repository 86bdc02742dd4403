/** How the vault names its files, and which names it takes for an account. */
module VaultNames {
  import opened Basics
  import opened Addresses

  const OPEN_SUFFIX := ".open.json"
  const SEALED_SUFFIX := ".json"
  const LOCK_FILE := ".lock"
  const OBSERVED_FILE := "observed.json"
  const OBSERVED_STAGED_FILE := ".observed.json.new"

  /** One entry of the listing: an address, and which of its two names the file has. */
  datatype StoredAccount = StoredAccount(addr: Address, protected: bool)

  function StripSuffix(name: string, suffix: string): Option<string> {
    var n := |name| - |suffix|;
    if n >= 0 && name[n..] == suffix then Some(name[..n]) else None
  }

  function ParseName(name: string): Option<StoredAccount> {
    match StripSuffix(name, OPEN_SUFFIX)
    case Some(stem) => if IsAddress(stem) then Some(StoredAccount(stem, false)) else None
    case None =>
      match StripSuffix(name, SEALED_SUFFIX)
      case Some(stem) => if IsAddress(stem) then Some(StoredAccount(stem, true)) else None
      case None => None
  }

  function PathOf(addr: Address, protected: bool): string {
    addr + if protected then SEALED_SUFFIX else OPEN_SUFFIX
  }

  lemma StripOfAppend(stem: string, suffix: string)
    ensures StripSuffix(stem + suffix, suffix) == Some(stem)
  {
  }

  /** A sealed file's name never reads as an open one's: `.open` is not the end of an address. */
  lemma SealedIsNotOpen(addr: Address)
    ensures StripSuffix(addr + SEALED_SUFFIX, OPEN_SUFFIX).None?
  {
    var name := addr + SEALED_SUFFIX;
    var n := |name| - |OPEN_SUFFIX|;
    assert name[n..][0] == addr[n] && IsHexDigit(addr[n]);
    assert OPEN_SUFFIX[0] == '.';
  }

  /** The file-name reader exactly inverts the writer. */
  lemma ReaderInvertsWriter(name: string, held: StoredAccount)
    ensures ParseName(name) == Some(held) <==> name == PathOf(held.addr, held.protected)
  {
    if name == PathOf(held.addr, held.protected) {
      if held.protected {
        SealedIsNotOpen(held.addr);
        StripOfAppend(held.addr, SEALED_SUFFIX);
      } else {
        StripOfAppend(held.addr, OPEN_SUFFIX);
      }
    }
    if ParseName(name) == Some(held) {
      var suffix := if held.protected then SEALED_SUFFIX else OPEN_SUFFIX;
      assert name == name[..|name| - |suffix|] + name[|name| - |suffix|..];
    }
  }

  lemma AccountNamesHaveTwoLengths(name: string)
    requires ParseName(name).Some?
    ensures |name| == 69 || |name| == 74
  {
  }

  /** So the lock, the observed list and a create's stage directory are never accounts. */
  lemma OtherFilesAreNotAccounts(addr: Address)
    ensures ParseName(LOCK_FILE).None? && ParseName(".stage-" + addr).None?
    ensures ParseName(OBSERVED_FILE).None? && ParseName(OBSERVED_STAGED_FILE).None?
  {
    var stage := ".stage-" + addr;
    assert |stage| == 71 && |LOCK_FILE| == 5 && |OBSERVED_FILE| == 13 && |OBSERVED_STAGED_FILE| == 18;
    if ParseName(stage).Some? {
      AccountNamesHaveTwoLengths(stage);
    }
  }

  /** Nor is a copy beside a key file, whatever the copy is called after. */
  lemma CopiesAreNotAccounts(addr: Address, infix: string, protected: bool)
    requires infix != []
    ensures
      var name := addr + infix + if protected then SEALED_SUFFIX else OPEN_SUFFIX;
      ParseName(name).Some? <==> protected && infix == ".open"
  {
    var suffix := if protected then SEALED_SUFFIX else OPEN_SUFFIX;
    var name := addr + infix + suffix;
    assert |name| == 64 + |infix| + |suffix|;
    if ParseName(name).Some? {
      AccountNamesHaveTwoLengths(name);
      ReaderInvertsWriter(name, ParseName(name).value);
      assert name[64..] == OPEN_SUFFIX && infix == name[64..69];
    }
    if protected && infix == ".open" {
      assert name == PathOf(addr, false);
      ReaderInvertsWriter(name, StoredAccount(addr, false));
    }
  }
}
