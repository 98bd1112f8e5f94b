/** The cloud sync status: the record the app shows, its transitions when
    a sync starts, succeeds or fails, which providers a full sync runs, and
    the connection check. What a provider's sync does over the network is
    not part of this model: each sync's outcome is an input, and so are the
    connection flags, the user information and the current time. */
module Sync {
  import opened Wrappers
  import opened LocalStorage

  /** The storage key of the time of the last successful sync. */
  const LastSyncKey: string := "lastSyncTime"

  datatype SyncState = SyncState(
    isSignedInGoogle: bool,
    isSignedInOneDrive: bool,
    isSyncing: bool,
    lastSyncTime: Option<string>,
    syncError: Option<string>)

  /** `createInitialSyncState`: signed in nowhere, idle, never synced, no error. */
  function CreateInitialSyncState(): (s: SyncState)
    ensures !s.isSignedInGoogle && !s.isSignedInOneDrive
    ensures !s.isSyncing
    ensures s.lastSyncTime.None? && s.syncError.None?
  {
    SyncState(false, false, false, None, None)
  }

  /** A thrown value: an `Error` with its message, or any other value. */
  datatype Thrown = ErrorObject(message: string) | OtherValue

  /** `error instanceof Error ? error.message : "Sync failed"`. */
  function ErrorMessage(e: Thrown): (m: string)
    ensures e.ErrorObject? ==> m == e.message
    ensures e.OtherValue? ==> m == "Sync failed"
  {
    match e
    case ErrorObject(message) => message
    case OtherValue => "Sync failed"
  }

  /** What a provider's `fullSync` resolves to. */
  datatype SyncCounts = SyncCounts(uploaded: nat, downloaded: nat)

  /** A settled `fullSync`: its counts, or the value it threw. */
  type Outcome = Result<SyncCounts, Thrown>

  datatype UserInfo = UserInfo(email: string, name: string)

  datatype Provider = Google | OneDrive

  // ---------------------------------------------------------------------
  // transitions of the record

  /** The fields a sync leaves alone. */
  predicate SameSignIn(a: SyncState, b: SyncState) {
    a.isSignedInGoogle == b.isSignedInGoogle && a.isSignedInOneDrive == b.isSignedInOneDrive
  }

  /** The update made when a sync starts. */
  function Started(s: SyncState): (r: SyncState)
    ensures r.isSyncing && r.syncError.None?
    ensures SameSignIn(r, s) && r.lastSyncTime == s.lastSyncTime
  {
    s.(isSyncing := true, syncError := None)
  }

  /** The update made when a sync succeeds at time `now`. */
  function Succeeded(s: SyncState, now: string): (r: SyncState)
    ensures !r.isSyncing && r.lastSyncTime == Some(now)
    ensures SameSignIn(r, s) && r.syncError == s.syncError
  {
    s.(isSyncing := false, lastSyncTime := Some(now))
  }

  /** The update made when a sync fails with message `message`. */
  function Failed(s: SyncState, message: string): (r: SyncState)
    ensures !r.isSyncing && r.syncError == Some(message)
    ensures SameSignIn(r, s) && r.lastSyncTime == s.lastSyncTime
  {
    s.(isSyncing := false, syncError := Some(message))
  }

  /** A completed sync, whatever its outcome, leaves the record idle and
      the sign-in flags as they were; success records the time and no
      error, failure the message and the previous time. */
  lemma CompletedSync(s: SyncState, now: string, e: Thrown)
    ensures var ok := Succeeded(Started(s), now);
      !ok.isSyncing && ok.syncError.None? && ok.lastSyncTime == Some(now) && SameSignIn(ok, s)
    ensures var bad := Failed(Started(s), ErrorMessage(e));
      && !bad.isSyncing && bad.syncError.Some? && bad.lastSyncTime == s.lastSyncTime && SameSignIn(bad, s)
      && (e.OtherValue? ==> bad.syncError == Some("Sync failed"))
  {
  }

  // ---------------------------------------------------------------------
  // syncAll

  /** The providers syncAll runs, in the order of its `promises` array:
      those signed in, each once. */
  function Selected(s: SyncState): (ps: seq<Provider>)
    ensures forall p :: p in ps <==> (p == Google && s.isSignedInGoogle) || (p == OneDrive && s.isSignedInOneDrive)
    ensures |ps| <= 2 && (|ps| == 2 ==> ps[0] != ps[1])
  {
    (if s.isSignedInGoogle then [Google] else []) + (if s.isSignedInOneDrive then [OneDrive] else [])
  }

  /** Outcome i is the failure with `e` and none before it failed. */
  predicate FailsFirstAt(outcomes: seq<Outcome>, i: int, e: Thrown) {
    0 <= i < |outcomes| && outcomes[i] == Err(e) && forall j :: 0 <= j < i ==> outcomes[j].Ok?
  }

  /** `Promise.all` over settled outcomes, taken in array order: the first
      failure, or success when there is none. */
  function Settled(outcomes: seq<Outcome>): (r: Result<(), Thrown>)
    ensures r.Ok? <==> forall i :: 0 <= i < |outcomes| ==> outcomes[i].Ok?
    ensures r.Err? ==> exists i :: FailsFirstAt(outcomes, i, r.error)
  {
    if outcomes == [] then Ok(())
    else if outcomes[0].Err? then
      assert FailsFirstAt(outcomes, 0, outcomes[0].error);
      Err(outcomes[0].error)
    else
      var r := Settled(outcomes[1..]);
      assert r.Err? ==> exists i :: FailsFirstAt(outcomes, i, r.error) by {
        if r.Err? {
          var i :| FailsFirstAt(outcomes[1..], i, r.error);
          assert outcomes[i + 1] == Err(r.error);
          forall j | 0 <= j < i + 1
            ensures outcomes[j].Ok?
          {
            if j > 0 {
              assert outcomes[j] == outcomes[1..][j - 1];
            }
          }
          assert FailsFirstAt(outcomes, i + 1, r.error);
        }
      }
      r
  }

  /** After outcomes that all succeeded, the rest decides. */
  lemma {:induction false} SettledAfter(outcomes: seq<Outcome>, i: nat)
    requires i <= |outcomes|
    requires forall j :: 0 <= j < i ==> outcomes[j].Ok?
    ensures Settled(outcomes) == Settled(outcomes[i..])
  {
    if i > 0 {
      assert outcomes[1..][i - 1..] == outcomes[i..];
      SettledAfter(outcomes[1..], i - 1);
    }
  }

  /** The outcome of a provider's sync among the two inputs. */
  function OutcomeOf(p: Provider, google: Outcome, oneDrive: Outcome): Outcome {
    match p
    case Google => google
    case OneDrive => oneDrive
  }

  /** Awaiting the promises one after the other. */
  method AwaitAll(outcomes: seq<Outcome>) returns (r: Result<(), Thrown>)
    ensures r == Settled(outcomes)
  {
    var i := 0;
    while i < |outcomes|
      invariant 0 <= i <= |outcomes|
      invariant forall j :: 0 <= j < i ==> outcomes[j].Ok?
    {
      if outcomes[i].Err? {
        SettledAfter(outcomes, i);
        return Err(outcomes[i].error);
      }
      i := i + 1;
    }
    SettledAfter(outcomes, i);
    return Ok(());
  }

  // ---------------------------------------------------------------------
  // the provider

  class SyncProvider {
    var state: SyncState
    var googleUser: Option<UserInfo>
    var oneDriveUser: Option<UserInfo>

    /** The provider as mounted: the initial record and no user information. */
    constructor()
      ensures state == CreateInitialSyncState()
      ensures googleUser.None? && oneDriveUser.None?
    {
      state := CreateInitialSyncState();
      googleUser := None;
      oneDriveUser := None;
    }

    /** `checkConnectionStatus`: both sign-in flags from the connection
        checks, the user information of a connected provider (as returned,
        possibly null) and none for a disconnected one, and the stored last
        sync time when one is stored (an empty string counts as none). */
    method CheckConnectionStatus(store: JournalStore, googleConnected: bool, oneDriveConnected: bool,
                                 googleInfo: Option<UserInfo>, oneDriveInfo: Option<UserInfo>)
      modifies this
      ensures state.isSignedInGoogle == googleConnected && state.isSignedInOneDrive == oneDriveConnected
      ensures state.isSyncing == old(state.isSyncing) && state.syncError == old(state.syncError)
      ensures googleUser == (if googleConnected then googleInfo else None)
      ensures oneDriveUser == (if oneDriveConnected then oneDriveInfo else None)
      ensures state.lastSyncTime ==
        if LastSyncKey in store.items && store.items[LastSyncKey] != "" then Some(store.items[LastSyncKey])
        else old(state.lastSyncTime)
    {
      state := state.(isSignedInGoogle := googleConnected, isSignedInOneDrive := oneDriveConnected);
      if googleConnected {
        googleUser := googleInfo;
      } else {
        googleUser := None;
      }
      if oneDriveConnected {
        oneDriveUser := oneDriveInfo;
      } else {
        oneDriveUser := None;
      }
      var lastSync := if LastSyncKey in store.items then Some(store.items[LastSyncKey]) else None;
      if lastSync.Some? && lastSync.value != "" {
        state := state.(lastSyncTime := lastSync);
      }
    }

    /** The body shared by syncWithGoogle and syncWithOneDrive: start, then
        on success store `now` under the last-sync key and record it, on
        failure record the message; the outcome is passed on (a failure is
        rethrown). */
    method RunSync(store: JournalStore, outcome: Outcome, now: string) returns (r: Outcome)
      requires store.Valid()
      modifies this, store
      ensures store.Valid() && r == outcome
      ensures googleUser == old(googleUser) && oneDriveUser == old(oneDriveUser)
      ensures store.tagIndex == old(store.tagIndex)
      ensures outcome.Ok? ==>
        state == Succeeded(Started(old(state)), now) && store.items == old(store.items)[LastSyncKey := now]
      ensures outcome.Err? ==>
        state == Failed(Started(old(state)), ErrorMessage(outcome.error)) && store.items == old(store.items)
    {
      state := Started(state);
      r := outcome;
      match outcome
      case Ok(_) =>
        store.items := store.items[LastSyncKey := now];
        state := Succeeded(state, now);
      case Err(e) =>
        state := Failed(state, ErrorMessage(e));
    }

    /** `syncWithGoogle`, given what Google Drive's fullSync settles to. */
    method SyncWithGoogle(store: JournalStore, outcome: Outcome, now: string) returns (r: Outcome)
      requires store.Valid()
      modifies this, store
      ensures store.Valid() && r == outcome
      ensures googleUser == old(googleUser) && oneDriveUser == old(oneDriveUser)
      ensures store.tagIndex == old(store.tagIndex)
      ensures outcome.Ok? ==>
        state == Succeeded(Started(old(state)), now) && store.items == old(store.items)[LastSyncKey := now]
      ensures outcome.Err? ==>
        state == Failed(Started(old(state)), ErrorMessage(outcome.error)) && store.items == old(store.items)
    {
      r := RunSync(store, outcome, now);
    }

    /** `syncWithOneDrive`, given what OneDrive's fullSync settles to. */
    method SyncWithOneDrive(store: JournalStore, outcome: Outcome, now: string) returns (r: Outcome)
      requires store.Valid()
      modifies this, store
      ensures store.Valid() && r == outcome
      ensures googleUser == old(googleUser) && oneDriveUser == old(oneDriveUser)
      ensures store.tagIndex == old(store.tagIndex)
      ensures outcome.Ok? ==>
        state == Succeeded(Started(old(state)), now) && store.items == old(store.items)[LastSyncKey := now]
      ensures outcome.Err? ==>
        state == Failed(Started(old(state)), ErrorMessage(outcome.error)) && store.items == old(store.items)
    {
      r := RunSync(store, outcome, now);
    }

    /** `syncAll`: the fullSync of every signed-in provider; it succeeds,
        storing and recording `now`, exactly when none of them fails (so
        also when none is signed in), and otherwise records and rethrows a
        failure of a selected provider. */
    method SyncAll(store: JournalStore, google: Outcome, oneDrive: Outcome, now: string)
      returns (r: Result<(), Thrown>)
      requires store.Valid()
      modifies this, store
      ensures store.Valid()
      ensures googleUser == old(googleUser) && oneDriveUser == old(oneDriveUser)
      ensures store.tagIndex == old(store.tagIndex)
      ensures r.Ok? <==> forall p :: p in Selected(old(state)) ==> OutcomeOf(p, google, oneDrive).Ok?
      ensures r.Err? ==> exists p :: p in Selected(old(state)) && OutcomeOf(p, google, oneDrive) == Err(r.error)
      ensures r.Ok? ==>
        state == Succeeded(Started(old(state)), now) && store.items == old(store.items)[LastSyncKey := now]
      ensures r.Err? ==>
        state == Failed(Started(old(state)), ErrorMessage(r.error)) && store.items == old(store.items)
    {
      var selected := Selected(state);
      var promises: seq<Outcome> := [];
      if state.isSignedInGoogle {
        promises := promises + [google];
      }
      if state.isSignedInOneDrive {
        promises := promises + [oneDrive];
      }
      assert forall i :: 0 <= i < |promises| ==> promises[i] == OutcomeOf(selected[i], google, oneDrive);
      state := Started(state);
      r := AwaitAll(promises);
      match r
      case Ok(_) =>
        store.items := store.items[LastSyncKey := now];
        state := Succeeded(state, now);
      case Err(e) =>
        state := Failed(state, ErrorMessage(e));
    }
  }
}
