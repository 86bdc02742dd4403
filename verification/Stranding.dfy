/**
 * How an account comes to be in both groups, and from there to be stranded: an observed
 * account is read, its key is imported while the list cannot be written, an entry is staged
 * for revoking, and the account is no longer observed.
 */
module Stranding {
  import opened Basics
  import opened Addresses
  import opened AccountLog
  import opened Codec
  import opened Staging
  import opened Publishing
  import opened AccountDevice
  import opened DeviceTheorems
  import opened Sessions
  import opened Vault
  import opened AccountCore
  import LogRows
  import Observed

  /** A log of one name. */
  function Named(name: Bytes): Log {
    [EntryOf(SetDisplayName(name))]
  }

  lemma NamedIsReadable(name: Bytes)
    requires |name| <= MAX_DISPLAY_NAME_BYTES
    ensures Valid(Named(name)) && Live(Named(name), 0) && EncodeError(Named(name)).None?
    ensures PayloadBytes(Named(name)) == 41 + |name|
    ensures forall key :: !KeyLive(Named(name), key)
  {
    var log := Named(name);
    assert [] + log == log;
    ValidPush([], log[0]);
    FrameCost(SetDisplayName(name));
    LogRows.BytesOfOne(log[0]);
  }

  /** The account as it stands along the way: read, with its name staged for revoking, and unread. */
  function ReadOnce(name: Bytes): Device {
    Device(Some(Named(name)), true, None, [], 0)
  }

  function WithRevocation(name: Bytes): Device {
    ReadOnce(name).(staged := [Revoke(0)])
  }

  lemma FirstRead(name: Bytes)
    ensures Refresh(NEW_DEVICE, Served(Named(name))) == (ReadOnce(name), Ok(0))
  {
  }

  lemma WithinCap(name: Bytes, key: Key)
    requires |name| <= MAX_DISPLAY_NAME_BYTES
    ensures WithinBudget(Named(name), [Revoke(0)])
    ensures WithinBudget(Named(name), [Revoke(0)] + [AddInstallation(key)])
  {
    var staged := [Revoke(0)] + [AddInstallation(key)];
    NamedIsReadable(name);
    CostOfOne(Revoke(0));
    CostOfOne(AddInstallation(key));
    CostConcat([Revoke(0)], [AddInstallation(key)]);
    PlanCost(Named(name), [Revoke(0)]);
    PlanCost(Named(name), staged);
  }

  lemma RevokingIsTaken(name: Bytes)
    requires |name| <= MAX_DISPLAY_NAME_BYTES
    ensures StageRevoke(ReadOnce(name), 0) == (WithRevocation(name), None)
    ensures Sound(WithRevocation(name))
  {
    NamedIsReadable(name);
    assert [] + [Revoke(0)] == [Revoke(0)];
    StageRevokeDecides(ReadOnce(name), 0);
    WithinCap(name, seq(KEY_BYTES, _ => 0));
  }

  lemma UnreadIsStranded(name: Bytes, key: Key)
    requires |name| <= MAX_DISPLAY_NAME_BYTES
    ensures Stranded(Unread(WithRevocation(name)))
    ensures StageAddInstallation(Unread(WithRevocation(name)), key) ==
              (Unread(WithRevocation(name)), Some(LogRefused(NotLive(0))))
  {
    var d := WithRevocation(name);
    RevokingIsTaken(name);
    assert Revoke(0) in d.staged && !Keeps([], Revoke(0));
    UnreadStrands(d);
    assert RevokesOf(d.staged) == [Revoke(0)];
    StrandedRefuses(Unread(d), key, [], 0);
  }

  lemma NothingSettles(name: Bytes)
    requires |name| <= MAX_DISPLAY_NAME_BYTES
    ensures Settle(WithRevocation(name)) == WithRevocation(name)
  {
    NamedIsReadable(name);
    SettledFixed(Named(name), [Revoke(0)]);
  }

  lemma ReadAgain(name: Bytes)
    requires |name| <= MAX_DISPLAY_NAME_BYTES
    ensures Refresh(Unread(WithRevocation(name)), Served(Named(name))) == (WithRevocation(name), Ok(0))
  {
    NothingSettles(name);
  }

  lemma KeyIsTaken(name: Bytes, key: Key)
    requires |name| <= MAX_DISPLAY_NAME_BYTES
    ensures StageAddInstallation(WithRevocation(name), key).1 == None
    ensures Sound(StageAddInstallation(WithRevocation(name), key).0)
  {
    var d := WithRevocation(name);
    RevokingIsTaken(name);
    NamedIsReadable(name);
    WithinCap(name, key);
    assert AddInstallation(key) !in d.staged;
    StageAddInstallationDecides(d, key);
  }

  /** The store's signed copy of that log. */
  function Signed(addr: Address, name: Bytes): (artifact: Artifact)
    requires |name| <= MAX_DISPLAY_NAME_BYTES
    ensures Checked(addr, artifact) == Served(Named(name))
  {
    NamedIsReadable(name);
    ServedIsChecked(addr, Named(name));
    SignedLog(addr, Encode(Named(name)).value)
  }

  /** What the first part of the run leaves: the account in both groups, read, nothing staged. */
  ghost predicate InBothGroups(core: AccountCore, addr: Address)
    reads core, core.vault, core.observed
  {
    && core.Valid() && !core.Rooted()
    && OneNameEach(core.vault.files) && HoldsKey(core.vault.files, addr)
    && Observed.Readable(core.observed.file) && addr in Observed.Listed(core.observed.file)
  }

  method ReadObserved(core: AccountCore, addr: Address, name: Bytes)
    requires |name| <= MAX_DISPLAY_NAME_BYTES && core.Valid() && core.Steady() && core.Rooted()
    requires core.vault.files == map[] && core.observed.file.Missing?
    requires View(core.Session(), addr) == NEW_DEVICE
    modifies core, core.observed
    ensures core.Valid() && core.Steady() && core.Rooted()
    ensures core.vault.files == map[] && addr in Observed.Listed(core.observed.file)
    ensures View(core.Session(), addr) == ReadOnce(name)
  {
    var added := core.Observe(addr, true);
    FirstRead(name);
    var read := core.Refresh(addr, Signed(addr, name));
  }

  method ReadThenImport(core: AccountCore, key: SigningKey, name: Bytes) returns (imported: Result<Address, CoreError>)
    requires |name| <= MAX_DISPLAY_NAME_BYTES && core.Valid() && core.Steady() && core.Rooted()
    requires core.vault.files == map[] && core.observed.file.Missing?
    requires View(core.Session(), key.address) == NEW_DEVICE
    modifies core, core.vault, core.observed
    ensures imported == Err(InList(Observed.Io))
    ensures InBothGroups(core, key.address) && core.Steady()
    ensures View(core.Session(), key.address) == ReadOnce(name)
  {
    ReadObserved(core, key.address, name);
    imported := core.ImportAccount(Some(key), None, true, false);
  }

  method RevokeThenStop(core: AccountCore, addr: Address, name: Bytes)
    returns (revoked: Option<CoreError>, stopped: Option<CoreError>)
    requires |name| <= MAX_DISPLAY_NAME_BYTES && InBothGroups(core, addr) && core.Steady()
    requires View(core.Session(), addr) == ReadOnce(name)
    modifies core, core.observed
    ensures revoked == None && stopped == None
    ensures core.Valid() && !core.Steady() && View(core.Session(), addr) == Unread(WithRevocation(name))
    ensures core.vault.files == old(core.vault.files)
  {
    RevokingIsTaken(name);
    revoked := core.StageRevoke(addr, 0);
    UnreadIsStranded(name, seq(KEY_BYTES, _ => 0));
    stopped := core.StopObserving(addr, true);
  }

  /** Whether the run still holds the key, so that its calls on the account are taken. */
  ghost predicate HoldsStill(core: AccountCore, addr: Address)
    reads core, core.vault
  {
    core.Valid() && OneNameEach(core.vault.files) && HoldsKey(core.vault.files, addr)
  }

  method StageStranded(core: AccountCore, addr: Address, name: Bytes, other: Key) returns (refused: Option<CoreError>)
    requires |name| <= MAX_DISPLAY_NAME_BYTES && HoldsStill(core, addr)
    requires View(core.Session(), addr) == Unread(WithRevocation(name))
    modifies core
    ensures refused == Some(InEdit(LogRefused(NotLive(0))))
    ensures HoldsStill(core, addr) && View(core.Session(), addr) == Unread(WithRevocation(name))
  {
    UnreadIsStranded(name, other);
    refused := core.StageAddInstallation(addr, Some(other));
  }

  method ReadThenStage(core: AccountCore, addr: Address, name: Bytes, other: Key) returns (taken: Option<CoreError>)
    requires |name| <= MAX_DISPLAY_NAME_BYTES && HoldsStill(core, addr)
    requires View(core.Session(), addr) == Unread(WithRevocation(name))
    modifies core
    ensures taken == None && core.Valid() && Sound(View(core.Session(), addr))
  {
    ReadAgain(name);
    var read := core.Refresh(addr, Signed(addr, name));
    KeyIsTaken(name, other);
    taken := core.StageAddInstallation(addr, Some(other));
  }

  /**
   * The run itself, on a handle's own calls. The import leaves the account in both groups, the
   * stop strands it, the edit after it is refused by the log, and a read puts it right.
   */
  method Strand(key: SigningKey, name: Bytes, other: Key)
    returns (imported: Result<Address, CoreError>, revoked: Option<CoreError>, stopped: Option<CoreError>,
             refused: Option<CoreError>, taken: Option<CoreError>)
    requires |name| <= MAX_DISPLAY_NAME_BYTES
    ensures imported == Err(InList(Observed.Io))
    ensures revoked == None && stopped == None
    ensures refused == Some(InEdit(LogRefused(NotLive(0))))
    ensures taken == None
  {
    var core := new AccountCore();
    imported := ReadThenImport(core, key, name);
    revoked, stopped := RevokeThenStop(core, key.address, name);
    refused := StageStranded(core, key.address, name, other);
    taken := ReadThenStage(core, key.address, name, other);
  }
}
