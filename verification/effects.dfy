/** The observable effects a join can have on the server, and the thread
    discipline each one is dispatched with. */
module Effects {

  /** The messages this process sends or kicks with. */
  datatype MessageKey = NotOwnerError | SameIpOnline | SessionReconnection | SessionExpired

  /** The permission groups a joining player can be placed in. */
  datatype AuthGroup = RegisteredUnauthenticated | Unregistered

  /** How an effect reaches the server:
      - `Caller`: run directly by the join process itself;
      - `MainThread`: handed to `runTask`;
      - `SyncFromAsync`: inside the one `scheduleSyncTaskFromOptionallyAsyncTask` runnable of the join;
      - `OptionallyAsync`: handed to `runTaskOptionallyAsync`. */
  datatype Dispatch = Caller | MainThread | SyncFromAsync | OptionallyAsync

  datatype Effect =
    | ForceSurvival                              // player.setGameMode(SURVIVAL)
    | DisableSocialSpy                           // Essentials social spy turned off
    | Kick(reason: MessageKey)                   // player.kickPlayer(message)
    | BanIp(ip: string)                          // server.banIP(ip)
    | SetGroup(group: AuthGroup)                 // permission group of the player
    | FireProtectInventory                       // ProtectInventoryEvent handed to the plugin manager
    | SetUnlogged(name: string)                  // logged-in flag cleared in the data source
    | RemoveFromCache(name: string)              // entry removed from the player cache
    | Send(key: MessageKey)                      // message sent to the player
    | ForceLogin                                 // login without credentials
    | CreateLimbo(name: string, registered: bool)  // limbo player created
    | SetNoDamageTicks(ticks: int)               // damage immunity
    | PerformMotd                                // the player runs "motd"
    | AddBlindness(duration: int, amplifier: int)  // blindness potion effect
    | RunJoinCommands                            // configured on-join commands

  /** The dispatch each kind of effect always gets in the join process. */
  function Via(e: Effect): Dispatch
  {
    match e
    case ForceSurvival => MainThread
    case ForceLogin => OptionallyAsync
    case Kick(_) => SyncFromAsync
    case BanIp(_) => SyncFromAsync
    case CreateLimbo(_, _) => SyncFromAsync
    case SetNoDamageTicks(_) => SyncFromAsync
    case PerformMotd => SyncFromAsync
    case AddBlindness(_, _) => SyncFromAsync
    case RunJoinCommands => SyncFromAsync
    case _ => Caller
  }

  /** Effects that change stored or in-memory login state, permissions or limbo. */
  predicate ChangesLoginState(e: Effect)
  {
    e.SetGroup? || e.SetUnlogged? || e.RemoveFromCache? || e.CreateLimbo? || e.ForceLogin?
  }

  /** No effect of the trace changes login state and none sends a message. */
  predicate LeavesLoginStateAlone(t: seq<Effect>)
  {
    forall e :: e in t ==> !ChangesLoginState(e) && !e.Send?
  }

  /** No effect of the trace creates a limbo player. */
  predicate CreatesNoLimbo(t: seq<Effect>)
  {
    forall e :: e in t ==> !e.CreateLimbo?
  }

  /** Every kick of the trace carries the message `key`. */
  predicate KicksOnlyWith(t: seq<Effect>, key: MessageKey)
  {
    forall e :: e in t && e.Kick? ==> e.reason == key
  }

  /** The logged-in flag and then the cache entry of `name` are cleared, in
      that order, before `msg` happens. */
  predicate ClearedBefore(t: seq<Effect>, name: string, msg: Effect)
  {
    exists i, j, m :: 0 <= i < j < m < |t|
      && t[i] == SetUnlogged(name) && t[j] == RemoveFromCache(name) && t[m] == msg
  }

  /** Every effect of the trace is dispatched with `d`. */
  predicate AllVia(t: seq<Effect>, d: Dispatch)
  {
    forall e :: e in t ==> Via(e) == d
  }

  /** No effect of the trace is dispatched with `d`. */
  predicate NoneVia(t: seq<Effect>, d: Dispatch)
  {
    forall e :: e in t ==> Via(e) != d
  }

  /** Once an effect dispatched with `d` appears, every later effect is
      dispatched with `d` too. */
  predicate ViaSuffix(t: seq<Effect>, d: Dispatch)
  {
    forall i, j :: 0 <= i < j < |t| && Via(t[i]) == d ==> Via(t[j]) == d
  }

  /** A trace none of whose effects before `k` use `d` and all of whose
      effects from `k` on do keeps the `d` effects at the end. */
  lemma ViaSuffixAtSplit(t: seq<Effect>, k: nat, d: Dispatch)
    requires k <= |t| && NoneVia(t[..k], d) && AllVia(t[k..], d)
    ensures ViaSuffix(t, d)
  {
    forall i, j | 0 <= i < j < |t| && Via(t[i]) == d
      ensures Via(t[j]) == d
    {
      assert t[j] == t[k..][j - k];
      assert t[j] in t[k..];
    }
  }

  /** Outcome of an admission check: whether the join may go on, and what the
      check scheduled when it may not. */
  datatype Gate = Gate(passed: bool, effects: seq<Effect>)
}
