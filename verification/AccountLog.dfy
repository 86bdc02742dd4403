/**
 * What an account log says. The `account_log` crate is not part of this model's
 * source, so its draft is defined here from what the manager asks of it: an entry
 * is pushed only where it means something on the log before it.
 */
module AccountLog {
  import opened Basics

  const KEY_BYTES := 32

  type Key = b: Bytes | |b| == KEY_BYTES witness seq(KEY_BYTES, _ => 0)

  datatype Data = Ed25519Key(key: Key) | Text(text: Bytes)

  datatype Entry =
    | Add(context: Bytes, data: Data)
    | Remove(index: nat)
    | Unknown(opcode: Byte, body: Bytes)

  /** Entry `i` of a log is what a revocation targets by writing `Remove(i)`. */
  type Log = seq<Entry>

  datatype LogError = NotLive(index: nat) | KeyAlreadyLive | NotAuthored | TooLarge

  const SIGNER_CONTEXT: Bytes := Ascii("chat.signer")
  const DISPLAY_NAME_CONTEXT: Bytes := Ascii("profile.displayname")

  const ADD_OPCODE: Byte := 1
  const REMOVE_OPCODE: Byte := 2

  /** The longest body a two-byte length can frame. */
  const MAX_BODY_BYTES := 0xffff

  function DataBytes(data: Data): Bytes {
    match data
    case Ed25519Key(key) => key
    case Text(text) => text
  }

  /** Whether the entry has a frame of its own: every length and index fits its field. */
  predicate Encodable(e: Entry) {
    match e
    case Add(context, data) => |context| < 256 && 2 + |context| + |DataBytes(data)| <= MAX_BODY_BYTES
    case Remove(index) => index < 0x1_0000_0000
    case Unknown(opcode, body) => opcode != ADD_OPCODE && opcode != REMOVE_OPCODE && |body| <= MAX_BODY_BYTES
  }

  /** An entry that was added and that no revocation targets. */
  predicate Live(log: Log, i: nat) {
    i < |log| && log[i].Add? && Remove(i) !in log
  }

  /** Whether `k` is live under any context at all. */
  predicate KeyLive(log: Log, k: Key) {
    exists i: nat :: i < |log| && Live(log, i) && log[i].data == Ed25519Key(k)
  }

  /** Whether a draft holding `log` takes `e` next. */
  predicate Pushable(log: Log, e: Entry) {
    Encodable(e) &&
    match e
    case Add(_, Ed25519Key(key)) => !KeyLive(log, key)
    case Add(_, Text(_)) => true
    case Remove(index) => Live(log, index)
    case Unknown(_, _) => false
  }

  /** Whether entry `i` could be pushed where it stands. */
  predicate PushableAt(log: Log, i: nat)
    requires i < |log|
  {
    Pushable(log[..i], log[i])
  }

  /** A log this build can read and sign again. */
  predicate Valid(log: Log) {
    forall i: nat {:trigger PushableAt(log, i)} :: i < |log| ==> PushableAt(log, i)
  }

  function Push(draft: Log, e: Entry): (r: Result<Log, LogError>) {
    if Pushable(draft, e) then Ok(draft + [e])
    else
      match e
      case Remove(index) => Err(NotLive(index))
      case Add(_, Ed25519Key(key)) => if KeyLive(draft, key) then Err(KeyAlreadyLive) else Err(NotAuthored)
      case _ => Err(NotAuthored)
  }

  /** Push `entries` one after the other, stopping at the first one refused. */
  function PushAll(draft: Log, entries: seq<Entry>): (r: Result<Log, LogError>)
    decreases |entries|
  {
    if entries == [] then Ok(draft)
    else
      match Push(draft, entries[0])
      case Err(error) => Err(error)
      case Ok(longer) => PushAll(longer, entries[1..])
  }

  /** A push is refused for what the entry runs into: a target not live, or a key that is. */
  lemma WhyAPushIsRefused(draft: Log, e: Entry)
    ensures Push(draft, e).Ok? <==> Pushable(draft, e)
    ensures Push(draft, e).Ok? ==> Push(draft, e).value == draft + [e]
    ensures forall i: nat :: Push(draft, e) == Err(NotLive(i)) <==> e == Remove(i) && !Pushable(draft, e)
    ensures Push(draft, e) == Err(KeyAlreadyLive) <==> e.Add? && e.data.Ed25519Key? && KeyLive(draft, e.data.key)
  {
  }

  lemma ValidPush(log: Log, e: Entry)
    ensures Valid(log + [e]) <==> Valid(log) && Pushable(log, e)
  {
    var longer := log + [e];
    assert PushableAt(longer, |log|) <==> Pushable(log, e) by {
      assert longer[..|log|] == log;
    }
    forall i: nat | i < |log|
      ensures PushableAt(longer, i) <==> PushableAt(log, i)
    {
      assert longer[..i] == log[..i];
    }
  }

  lemma ValidPrefix(log: Log, n: nat)
    requires Valid(log) && n <= |log|
    ensures Valid(log[..n])
  {
    forall i: nat | i < n
      ensures PushableAt(log[..n], i)
    {
      assert PushableAt(log, i);
      assert log[..n][..i] == log[..i];
    }
  }

  /** Pushing is all or nothing on the whole list: it succeeds exactly where the longer log is valid. */
  lemma {:induction false} PushAllIsValidity(draft: Log, entries: seq<Entry>)
    requires Valid(draft)
    ensures PushAll(draft, entries).Ok? <==> Valid(draft + entries)
    ensures PushAll(draft, entries).Ok? ==> PushAll(draft, entries).value == draft + entries
    decreases |entries|
  {
    if entries == [] {
      assert draft + entries == draft;
    } else {
      var e, rest := entries[0], entries[1..];
      assert draft + entries == draft + [e] + rest;
      ValidPush(draft, e);
      assert (draft + entries)[..|draft| + 1] == draft + [e];
      if Valid(draft + entries) {
        ValidPrefix(draft + entries, |draft| + 1);
      }
      if Pushable(draft, e) {
        PushAllIsValidity(draft + [e], rest);
      }
    }
  }

  /** The live indices as a reader finds them, taking the entries in order. */
  function Replay(log: Log): set<nat> {
    if log == [] then {}
    else
      var n := |log| - 1;
      match log[n]
      case Add(_, _) => Replay(log[..n]) + {n}
      case Remove(index) => Replay(log[..n]) - {index}
      case Unknown(_, _) => Replay(log[..n])
  }

  /** On a valid log, replaying it and looking for a tombstone agree on what is live. */
  lemma {:induction false} ReplayIsLive(log: Log, i: nat)
    requires Valid(log)
    ensures i in Replay(log) <==> Live(log, i)
  {
    if log != [] {
      var n := |log| - 1;
      var before := log[..n];
      ValidPrefix(log, n);
      ReplayIsLive(before, i);
      assert log == before + [log[n]];
      assert Remove(n) !in before by {
        forall j: nat | j < |before|
          ensures before[j] != Remove(n)
        {
          assert PushableAt(log, j);
        }
      }
    }
  }

  lemma LaterKeyDiffers(log: Log, i: nat, j: nat)
    requires Valid(log) && i < j && Live(log, i) && Live(log, j) && log[j].data.Ed25519Key?
    ensures log[i].data != log[j].data
  {
    assert PushableAt(log, j);
    assert Live(log[..j], i);
  }

  /** No key is ever live twice. */
  lemma KeysLiveOnce(log: Log, i: nat, j: nat)
    requires Valid(log) && Live(log, i) && Live(log, j)
    requires log[i].data.Ed25519Key? && log[i].data == log[j].data
    ensures i == j
  {
    if i < j {
      LaterKeyDiffers(log, i, j);
    } else if j < i {
      LaterKeyDiffers(log, j, i);
    }
  }

  /** Whatever a log appends, an entry that is not live never becomes live again. */
  lemma RevokedForGood(log: Log, longer: Log, i: nat)
    requires log <= longer && i < |log| && Live(longer, i)
    ensures Live(log, i)
  {
    assert forall e :: e in log ==> e in longer;
  }

  /** A valid log only removes what came before, so a removal of an entry past the end is nowhere in it. */
  lemma RemovesPointBack(log: Log, i: nat)
    requires Valid(log) && Remove(i) in log
    ensures i < |log|
  {
    var j: nat :| j < |log| && log[j] == Remove(i);
    assert PushableAt(log, j);
  }
}
